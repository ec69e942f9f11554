/** The receiving half of a channel: the local window, the `descending` buffer and
    the double buffer to the subsystem (section 5.2 of RFC 4254). */
module ReceiveWindow {
  import opened Bytes
  import opened Wire
  import opened DoubleBuffer
  import W = WriteDoubleBuffer
  import Buffers

  datatype Receive = Receive(
    window: U32, max: U32, consumed: U32, maxPacket: U32, // local_window and so on
    descending: seq<Byte>, w: W.State, ended: bool,
    // history: the peer's remaining credit, the data accepted, the messages
    // forwarded, and how often a length field was not given back
    credit: int, received: seq<Byte>, forwarded: seq<seq<Byte>>, lost: nat)

  /** A channel not opened yet announces no window. */
  function Empty(maxPacket: U32): (rx: Receive) {
    Receive(0, 0, 0, maxPacket, [], W.EMPTY, false, 0, [], [], 0)
  }

  /** `channel_input_data` behind the checks: data for a closed output half is
      counted as consumed at once, data beyond the window is dropped. */
  function TakeData(rx: Receive, data: seq<Byte>, outputOpen: bool): (t: Receive)
    requires |data| < TWO32
  {
    var paid := rx.(credit := rx.credit - |data|);
    if !outputOpen then
      paid.(window := (rx.window - |data|) % 0x1_0000_0000, consumed := (rx.consumed + |data|) % 0x1_0000_0000)
    else if |data| > rx.window then paid
    else paid.(window := rx.window - |data|, descending := rx.descending + data, received := rx.received + data)
  }

  /** Data for a channel that is not open yet is ignored, but the peer has spent it. */
  function Ignored(rx: Receive, n: nat): (t: Receive) {
    rx.(credit := rx.credit - n)
  }

  /** `fromChannel->put (data, len, &local_consumed)`. */
  function PutThrough(rx: Receive, data: seq<Byte>): (t: Receive) {
    var w := W.PutStep(rx.w, data);
    rx.(w := w, consumed := (rx.consumed + (w.credited - rx.w.credited)) % 0x1_0000_0000)
  }

  /** `SessionChannel::descending2subproc`: all there is, as one message. */
  function ForwardRaw(rx: Receive): (t: Receive) {
    var data := rx.descending;
    if |data| > Buffers.MAX_CHUNK then rx.(ended := true)
    else PutThrough(rx, data).(descending := [], forwarded := rx.forwarded + if data == [] then [] else [data])
  }

  /** `is_complete_packet_in_descending`; the addition is unsigned. */
  predicate CompletePacket(descending: seq<Byte>) {
    |descending| >= 5 && |descending| >= (GetU32(descending) + 4) % 0x1_0000_0000
  }

  /** `SFTPChannel::descending2subproc`: one message, cut at its length prefix. */
  function ForwardSftp(rx: Receive): (t: Receive) {
    if !CompletePacket(rx.descending) then PutThrough(rx, [])
    else
      var len, rest := GetU32(rx.descending), rx.descending[4..];
      if len > Buffers.MAX_CHUNK then rx.(ended := true)
      else
        var put := PutThrough(rx, rest[..len]);
        put.(descending := rest[len..], forwarded := rx.forwarded + [rest[..len]],
             consumed := if put.consumed == 0 then 0 else (put.consumed + 4) % 0x1_0000_0000,
             lost := rx.lost + if put.consumed == 0 then 1 else 0)
  }

  function Forward(rx: Receive, sftp: bool): (t: Receive) {
    if rx.ended || rx.w.fatal then rx else if sftp then ForwardSftp(rx) else ForwardRaw(rx)
  }

  /** The test of `channel_check_window`, on an open channel not being closed. */
  predicate WantsAdjust(rx: Receive) {
    && ((rx.max - rx.window) % 0x1_0000_0000 > rx.maxPacket * 3 || rx.window < rx.max / 2)
    && rx.consumed > 0
  }

  /** A window adjustment of `consumed` bytes was sent. */
  function Adjusted(rx: Receive): (t: Receive) {
    rx.(window := (rx.window + rx.consumed) % 0x1_0000_0000, consumed := 0, credit := rx.credit + rx.consumed)
  }

  /** `Channel::open`: the whole window is announced. */
  function Opened(rx: Receive, size: U32): (t: Receive) {
    rx.(window := size, max := size, credit := rx.credit + size)
  }

  function EndOfFile(rx: Receive): (t: Receive) {
    rx.(w := W.PutEofStep(rx.w))
  }

  function Worker(rx: Receive, other: bool): (t: Receive) {
    rx.(w := W.WorkStep(rx.w, other))
  }

  // ------------------------------------------------------------- the invariant

  /** The messages with content, in order. */
  function Contents(items: seq<Item>): (r: seq<seq<Byte>>) {
    if items == [] then []
    else
      var n := |items| - 1;
      Contents(items[..n]) + if items[n].data == [] then [] else [items[n].data]
  }

  function NonEmpty(ms: seq<seq<Byte>>): (r: seq<seq<Byte>>) {
    if ms == [] then []
    else
      var n := |ms| - 1;
      NonEmpty(ms[..n]) + if ms[n] == [] then [] else [ms[n]]
  }

  /** The data as it came in: messages end to end, or each behind its length. */
  function Stream(ms: seq<seq<Byte>>, sftp: bool): (w: seq<Byte>)
  {
    if ms == [] then []
    else
      var n := |ms| - 1;
      Stream(ms[..n], sftp) + if sftp && |ms[n]| < TWO32 then PutString(ms[n]) else ms[n]
  }

  /** Every byte of the window is somewhere: with the peer, consumed and not yet
      given back, in `descending`, or put to the subsystem and not yet credited. */
  predicate Balance(rx: Receive) {
    rx.window + rx.consumed + |rx.descending| + Payload(rx.w.put) == rx.max + rx.w.credited - 4 * rx.lost
  }

  /** The data on its way to the subsystem, whatever the peer's credit. */
  ghost predicate Streams(rx: Receive, sftp: bool) {
    && W.Invariant(rx.w)
    && Stream(rx.forwarded, sftp) + rx.descending == rx.received
    && Contents(rx.w.put) == NonEmpty(rx.forwarded)
  }

  ghost predicate Valid(rx: Receive, sftp: bool) {
    && Streams(rx, sftp)
    && Balance(rx) && rx.credit == rx.window && (!sftp ==> rx.lost == 0)
  }

  lemma BagLess(a: seq<Item>, b: seq<Item>, x: Item)
    ensures multiset(a + b) == multiset(a + [x] + b) - multiset{x}
  {
  }

  lemma PayloadWithout(b: seq<Item>, i: nat)
    requires i < |b|
    ensures Payload(b) == Payload(b[..i] + b[i + 1..]) + |b[i].data|
  {
    hide Payload;
    assert b == b[..i] + [b[i]] + b[i + 1..];
    PayloadConcat(b[..i], b[i + 1..]);
    PayloadConcat(b[..i] + [b[i]], b[i + 1..]);
    PayloadSnoc(b[..i], b[i]);
  }

  lemma FindInBag(a: seq<Item>, b: seq<Item>, n: nat) returns (i: nat)
    requires n + 1 == |a| && multiset(a) == multiset(b)
    ensures i < |b| && b[i] == a[n] && multiset(a[..n]) == multiset(b[..i] + b[i + 1..])
  {
    var x := a[n];
    assert x in multiset(b);
    i :| 0 <= i < |b| && b[i] == x;
    BagLess(a[..n], [], x);
    assert a[..n] + [x] + [] == a && a[..n] + [] == a[..n];
    BagLess(b[..i], b[i + 1..], x);
    assert b[..i] + [x] + b[i + 1..] == b;
  }

  lemma {:induction false} PayloadBag(a: seq<Item>, b: seq<Item>)
    requires multiset(a) == multiset(b)
    ensures Payload(a) == Payload(b)
    decreases |a|
  {
    if a != [] {
      var n := |a| - 1;
      var i := FindInBag(a, b, n);
      PayloadBag(a[..n], b[..i] + b[i + 1..]);
      PayloadWithout(b, i);
    }
  }

  lemma {:induction false} ContentsConcat(a: seq<Item>, b: seq<Item>)
    ensures Contents(a + b) == Contents(a) + Contents(b)
    decreases |b|
  {
    if b == [] {
      assert a + b == a;
    } else {
      var n := |b| - 1;
      assert a + b == a + b[..n] + [b[n]] && b == b[..n] + [b[n]];
      ContentsConcat(a, b[..n]);
      ContentsSnoc(a + b[..n], b[n]);
      ContentsSnoc(b[..n], b[n]);
    }
  }

  lemma ContentsWithout(b: seq<Item>, i: nat)
    requires i < |b|
    ensures multiset(Contents(b)) == multiset(Contents(b[..i] + b[i + 1..]))
      + if b[i].data == [] then multiset{} else multiset{b[i].data}
  {
    hide Contents;
    assert b == b[..i] + [b[i]] + b[i + 1..];
    ContentsConcat(b[..i], b[i + 1..]);
    ContentsConcat(b[..i] + [b[i]], b[i + 1..]);
    ContentsSnoc(b[..i], b[i]);
  }

  lemma {:induction false} ContentsBag(a: seq<Item>, b: seq<Item>)
    requires multiset(a) == multiset(b)
    ensures multiset(Contents(a)) == multiset(Contents(b))
    decreases |a|
  {
    hide Contents;
    if a == [] {
      assert b == [];
    } else {
      var n := |a| - 1;
      var i := FindInBag(a, b, n);
      ContentsBag(a[..n], b[..i] + b[i + 1..]);
      ContentsWithout(b, i);
      ContentsSnoc(a[..n], a[n]);
      assert a == a[..n] + [a[n]];
    }
  }

  /** What the worker was given: each message with content at most once; and between
      two of its `get`s all of them in the order they were put, exactly without a race. */
  lemma TakenAsPut(w: W.State)
    requires W.Invariant(w)
    ensures multiset(Contents(w.got)) <= multiset(Contents(w.put))
    ensures w.place.Idle? ==> (w.got + w.read <= w.put <==> !w.raced)
    ensures w.place.Idle? && !w.raced ==> Contents(w.got) <= Contents(w.put)
  {
    hide Contents;
    ContentsBag(w.got + w.read + w.write, w.put);
    ContentsConcat(w.got + w.read, w.write);
    ContentsConcat(w.got, w.read);
    if w.place.Idle? {
      W.InOrderExactly(w);
    }
  }

  /** The accounting seen from the double buffer: what was put and not credited is
      in one of its halves or in one of its consumed counters. */
  lemma PutIsSomewhere(w: W.State)
    requires W.Invariant(w)
    ensures Payload(w.put) - w.credited
         == Payload(w.read) + Payload(w.write) - w.readConsumed - w.writeConsumed
    ensures w.readConsumed <= 0 && w.writeConsumed <= 0
  {
    PayloadBag(w.got + w.read + w.write, w.put);
    PayloadConcat(w.got + w.read, w.write);
    PayloadConcat(w.got, w.read);
  }

  lemma ContentsSnoc(items: seq<Item>, x: Item)
    ensures Contents(items + [x]) == Contents(items) + if x.data == [] then [] else [x.data]
  {
    assert (items + [x])[..|items|] == items;
  }

  lemma NonEmptySnoc(ms: seq<seq<Byte>>, m: seq<Byte>)
    ensures NonEmpty(ms + [m]) == NonEmpty(ms) + if m == [] then [] else [m]
  {
    assert (ms + [m])[..|ms|] == ms;
  }

  lemma StreamSnoc(ms: seq<seq<Byte>>, m: seq<Byte>, sftp: bool)
    requires |m| < TWO32
    ensures Stream(ms + [m], sftp) == Stream(ms, sftp) + if sftp then PutString(m) else m
  {
    assert (ms + [m])[..|ms|] == ms;
  }

  // -------------------------------------------------------- the steps keep it

  lemma TakeDataKeeps(rx: Receive, data: seq<Byte>, outputOpen: bool, sftp: bool)
    requires Valid(rx, sftp) && |data| <= rx.credit
    ensures Valid(TakeData(rx, data, outputOpen), sftp)
  {
    hide W.Invariant, Contents, NonEmpty, Stream;
    PutIsSomewhere(rx.w);
    assert Stream(rx.forwarded, sftp) + (rx.descending + data) == (Stream(rx.forwarded, sftp) + rx.descending) + data;
  }

  /** What `put` does to the double buffer, seen from outside. */
  lemma PutStepEffect(w: W.State, data: seq<Byte>)
    requires W.Invariant(w) && !w.fatal
    ensures var t := W.PutStep(w, data);
      && W.Invariant(t)
      && Payload(t.put) == Payload(w.put) + |data|
      && w.credited <= t.credited
      && Contents(t.put) == Contents(w.put) + if data == [] then [] else [data]
  {
    W.InvariantStep(w, W.Put(data));
    var x := Item(|w.put|, data);
    PayloadSnoc(w.put, x);
    ContentsSnoc(w.put, x);
  }

  lemma PutThroughKeeps(rx: Receive, data: seq<Byte>)
    requires W.Invariant(rx.w) && !rx.w.fatal && Balance(rx) && |data| <= |rx.descending|
    ensures var t := PutThrough(rx, data);
      && t == rx.(w := t.w, consumed := t.consumed) && W.Invariant(t.w)
      && t.consumed == rx.consumed + (t.w.credited - rx.w.credited)
      && t.window + t.consumed + |rx.descending| - |data| + Payload(t.w.put) == t.max + t.w.credited - 4 * t.lost
      && Payload(t.w.put) >= t.w.credited
      && Contents(t.w.put) == Contents(rx.w.put) + if data == [] then [] else [data]
  {
    hide W.Invariant, W.PutStep, Contents, Payload;
    PutStepEffect(rx.w, data);
    PutIsSomewhere(W.PutStep(rx.w, data));
  }

  lemma ForwardRawKeeps(rx: Receive)
    requires Valid(rx, false) && !rx.w.fatal
    ensures Valid(ForwardRaw(rx), false)
  {
    hide W.Invariant, Contents, NonEmpty, Stream, PutThrough;
    var data := rx.descending;
    if |data| <= Buffers.MAX_CHUNK {
      PutThroughKeeps(rx, data);
      NonEmptySnoc(rx.forwarded, data);
      StreamSnoc(rx.forwarded, data, false);
      assert rx.forwarded + [] == rx.forwarded;
    }
  }

  lemma ForwardSftpKeeps(rx: Receive)
    requires Valid(rx, true) && !rx.w.fatal
    ensures Valid(ForwardSftp(rx), true)
  {
    hide W.Invariant, Contents, NonEmpty, Stream, PutThrough, GetU32, Payload;
    if !CompletePacket(rx.descending) {
      PutThroughKeeps(rx, []);
    } else if GetU32(rx.descending) <= Buffers.MAX_CHUNK {
      ForwardMessageKeeps(rx, GetU32(rx.descending));
    }
  }

  lemma ForwardMessageKeeps(rx: Receive, len: nat)
    requires Valid(rx, true) && !rx.w.fatal && CompletePacket(rx.descending)
    requires len == GetU32(rx.descending) <= Buffers.MAX_CHUNK
    ensures Valid(ForwardSftp(rx), true)
  {
    hide W.Invariant, Contents, NonEmpty, Stream, PutThrough, GetU32, Payload, PutString;
    var m, rest := rx.descending[4..][..len], rx.descending[4..][len..];
    PutThroughKeeps(rx, m);
    NonEmptySnoc(rx.forwarded, m);
    StreamSnoc(rx.forwarded, m, true);
    CutAtPrefix(rx.descending, len);
    assert Stream(rx.forwarded, true) + PutString(m) + rest == Stream(rx.forwarded, true) + (PutString(m) + rest);
  }

  lemma CutAtPrefix(d: seq<Byte>, len: nat)
    requires |d| >= 4 && len == GetU32(d) && |d| >= len + 4
    ensures PutString(d[4..][..len]) + d[4..][len..] == d
  {
    assert GetString(d) == Got(d[4..][..len], d[4..][len..]) || len > MAX_STRING;
    PutU32Inverse(d[..4]);
    GetU32Prefix(d[..4], d[4..]);
    assert d[..4] + d[4..] == d;
  }

  lemma ForwardKeeps(rx: Receive, sftp: bool)
    requires Valid(rx, sftp)
    ensures Valid(Forward(rx, sftp), sftp)
  {
    hide Valid, ForwardRaw, ForwardSftp;
    if !rx.ended && !rx.w.fatal {
      if sftp { ForwardSftpKeeps(rx); } else { ForwardRawKeeps(rx); }
    }
  }

  lemma AdjustedKeeps(rx: Receive, sftp: bool)
    requires Valid(rx, sftp)
    ensures Valid(Adjusted(rx), sftp)
    ensures Adjusted(rx).window == rx.window + rx.consumed
  {
    hide W.Invariant, Contents, NonEmpty, Stream, Payload;
    PutIsSomewhere(rx.w);
  }

  lemma EmptyValid(maxPacket: U32, sftp: bool)
    ensures Valid(Empty(maxPacket), sftp)
  {
    hide W.Invariant;
    W.InvariantEmpty();
    assert Payload(W.EMPTY.put) == 0;
  }

  lemma IgnoredKeeps(rx: Receive, n: nat, sftp: bool)
    requires Valid(rx, sftp) && n == 0
    ensures Valid(Ignored(rx, n), sftp)
  {
    hide W.Invariant, Contents, NonEmpty, Stream, Payload;
  }

  lemma OpenedKeeps(rx: Receive, size: U32, sftp: bool)
    requires Valid(rx, sftp) && rx.window == 0 && rx.max == 0
    ensures Valid(Opened(rx, size), sftp)
  {
    hide W.Invariant, Contents, NonEmpty, Stream, Payload;
  }

  lemma EndOfFileKeeps(rx: Receive, sftp: bool)
    requires Valid(rx, sftp)
    ensures Valid(EndOfFile(rx), sftp)
  {
    hide W.Invariant, Stream, NonEmpty, Payload, Contents;
    W.InvariantStep(rx.w, W.PutEof);
    var x := Item(|rx.w.put|, []);
    PayloadSnoc(rx.w.put, x);
    ContentsSnoc(rx.w.put, x);
  }

  lemma WorkStepEffect(w: W.State, other: bool)
    ensures var t := W.WorkStep(w, other); t.put == w.put && t.credited == w.credited
  {
  }

  lemma WorkerKeeps(rx: Receive, other: bool, sftp: bool)
    requires Valid(rx, sftp)
    ensures Valid(Worker(rx, other), sftp)
  {
    hide W.Invariant, W.WorkStep, Stream, Payload, Contents, NonEmpty;
    W.InvariantStep(rx.w, W.Work(other));
    WorkStepEffect(rx.w, other);
  }

  // ------------------------------------------ the data, with any peer at all

  lemma TakeDataStreams(rx: Receive, data: seq<Byte>, outputOpen: bool, sftp: bool)
    requires Streams(rx, sftp) && |data| < TWO32
    ensures Streams(TakeData(rx, data, outputOpen), sftp)
  {
    hide W.Invariant, Contents, NonEmpty, Stream;
    assert Stream(rx.forwarded, sftp) + (rx.descending + data) == (Stream(rx.forwarded, sftp) + rx.descending) + data;
  }

  lemma PutThroughStreams(rx: Receive, data: seq<Byte>)
    requires W.Invariant(rx.w) && !rx.w.fatal
    ensures var t := PutThrough(rx, data);
      && t == rx.(w := t.w, consumed := t.consumed) && W.Invariant(t.w)
      && Contents(t.w.put) == Contents(rx.w.put) + if data == [] then [] else [data]
  {
    hide W.Invariant, W.PutStep, Contents, Payload;
    PutStepEffect(rx.w, data);
  }

  lemma ForwardRawStreams(rx: Receive)
    requires Streams(rx, false) && !rx.w.fatal
    ensures Streams(ForwardRaw(rx), false)
  {
    hide W.Invariant, Contents, NonEmpty, Stream, PutThrough;
    var data := rx.descending;
    if |data| <= Buffers.MAX_CHUNK {
      PutThroughStreams(rx, data);
      NonEmptySnoc(rx.forwarded, data);
      StreamSnoc(rx.forwarded, data, false);
      assert rx.forwarded + [] == rx.forwarded;
    }
  }

  lemma ForwardSftpStreams(rx: Receive)
    requires Streams(rx, true) && !rx.w.fatal
    ensures Streams(ForwardSftp(rx), true)
  {
    hide W.Invariant, Contents, NonEmpty, Stream, PutThrough, GetU32, PutString;
    if !CompletePacket(rx.descending) {
      PutThroughStreams(rx, []);
    } else if GetU32(rx.descending) <= Buffers.MAX_CHUNK {
      var len := GetU32(rx.descending);
      var m, rest := rx.descending[4..][..len], rx.descending[4..][len..];
      PutThroughStreams(rx, m);
      NonEmptySnoc(rx.forwarded, m);
      StreamSnoc(rx.forwarded, m, true);
      CutAtPrefix(rx.descending, len);
      assert Stream(rx.forwarded, true) + PutString(m) + rest == Stream(rx.forwarded, true) + (PutString(m) + rest);
    }
  }

  lemma ForwardStreams(rx: Receive, sftp: bool)
    requires Streams(rx, sftp)
    ensures Streams(Forward(rx, sftp), sftp)
  {
    hide Streams, ForwardRaw, ForwardSftp;
    if !rx.ended && !rx.w.fatal {
      if sftp { ForwardSftpStreams(rx); } else { ForwardRawStreams(rx); }
    }
  }

  lemma EndOfFileStreams(rx: Receive, sftp: bool)
    requires Streams(rx, sftp)
    ensures Streams(EndOfFile(rx), sftp)
  {
    hide W.Invariant, Stream, NonEmpty, Contents;
    W.InvariantStep(rx.w, W.PutEof);
    ContentsSnoc(rx.w.put, Item(|rx.w.put|, []));
  }

  lemma WorkerStreams(rx: Receive, other: bool, sftp: bool)
    requires Streams(rx, sftp)
    ensures Streams(Worker(rx, other), sftp)
  {
    hide W.Invariant, W.WorkStep, Stream, Contents, NonEmpty;
    W.InvariantStep(rx.w, W.Work(other));
    WorkStepEffect(rx.w, other);
  }

  lemma CountersStreams(rx: Receive, size: U32, sftp: bool)
    requires Streams(rx, sftp)
    ensures Streams(Opened(rx, size), sftp) && Streams(Adjusted(rx), sftp) && Streams(Ignored(rx, size), sftp)
  {
    hide W.Invariant, Stream, Contents, NonEmpty;
  }

  // ---------------------------------------------------------- what it amounts to

  /** The receive window in the terms of the channel: the peer's credit is the
      local window, and window, consumed counter, buffered bytes and the bytes in the
      double buffer add up to the maximum, short of 4 for each length field lost. */
  lemma WindowAddsUp(rx: Receive, sftp: bool)
    requires Valid(rx, sftp)
    ensures rx.credit == rx.window
    ensures rx.window + rx.consumed + |rx.descending|
            + Payload(rx.w.read) + Payload(rx.w.write) - rx.w.readConsumed - rx.w.writeConsumed
         == rx.max - 4 * rx.lost
    ensures rx.window + rx.consumed <= rx.max
    ensures !sftp ==> rx.lost == 0
  {
    hide W.Invariant, Stream, Contents, NonEmpty;
    PutIsSomewhere(rx.w);
  }
}
