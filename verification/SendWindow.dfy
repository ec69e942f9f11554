/** The sending half of a channel: the remote window, the `ascending` buffer and
    the double buffer from the subsystem (section 5.2 of RFC 4254). */
module SendWindow {
  import opened Bytes
  import opened Wire
  import opened DoubleBuffer
  import R = ReadDoubleBuffer

  datatype Transmit = Transmit(
    window: U32, maxPacket: U32, // remote_window, remote_maxpacket
    ascending: seq<Byte>, r: R.State,
    // history: the window the peer granted in all, and the data packets sent
    granted: nat, packets: seq<seq<Byte>>)

  function Empty(window: U32, maxPacket: U32): (tx: Transmit) {
    Transmit(window, maxPacket, [], R.EMPTY, window, [])
  }

  function Least(a: nat, b: nat, c: nat): (m: nat)
    ensures m <= a && m <= b && m <= c && (m == a || m == b || m == c)
  {
    var ab := if b < a then b else a;
    if c < ab then c else ab
  }

  /** How much `channel_output_poll` sends. */
  function ShipLength(tx: Transmit): (n: nat) {
    Least(|tx.ascending|, tx.window, tx.maxPacket)
  }

  /** One CHANNEL_DATA packet, if there is something to send. */
  function Ship(tx: Transmit): (t: Transmit) {
    var n := ShipLength(tx);
    if n == 0 then tx
    else tx.(ascending := tx.ascending[n..], window := tx.window - n,
             packets := tx.packets + [tx.ascending[..n]])
  }

  /** `remote_window_adjust`: an unsigned addition. */
  function Grant(tx: Transmit, n: U32): (t: Transmit) {
    tx.(window := (tx.window + n) % 0x1_0000_0000, granted := tx.granted + n)
  }

  /** One step of `toChannel->get (ascending, asString)`. */
  function Fetch(tx: Transmit, sftp: bool): (t: Transmit) {
    var r := R.GetStep(tx.r);
    tx.(r := r, ascending := tx.ascending +
      if |r.got| > |tx.r.got| then Written(r.got[|r.got| - 1].data, sftp) else [])
  }

  /** A message as `get` appends it. */
  function Written(data: seq<Byte>, sftp: bool): (w: seq<Byte>) {
    if sftp && |data| < TWO32 then PutString(data) else data
  }

  function WorkerPut(tx: Transmit, data: seq<Byte>): (t: Transmit) {
    tx.(r := R.PutStep(tx.r, data))
  }

  // ------------------------------------------------------------- the invariant

  function Flat(packets: seq<seq<Byte>>): (w: seq<Byte>) {
    if packets == [] then []
    else Flat(packets[..|packets| - 1]) + packets[|packets| - 1]
  }

  /** The messages of the subsystem as the channel sends them on. */
  function Output(items: seq<Item>, sftp: bool): (w: seq<Byte>) {
    if items == [] then []
    else
      var d := items[|items| - 1].data;
      Output(items[..|items| - 1], sftp) + if sftp && |d| < TWO32 then PutU32(|d|) + d else d
  }

  lemma FlatSnoc(ps: seq<seq<Byte>>, p: seq<Byte>)
    ensures Flat(ps + [p]) == Flat(ps) + p
  {
    assert (ps + [p])[..|ps|] == ps;
  }

  lemma OutputSnoc(items: seq<Item>, x: Item, sftp: bool)
    ensures Output(items + [x], sftp) == Output(items, sftp) + Written(x.data, sftp)
  {
    assert (items + [x])[..|items|] == items;
  }

  predicate Valid(tx: Transmit, sftp: bool) {
    && R.Valid(tx.r)
    && Flat(tx.packets) + tx.ascending == Output(tx.r.got, sftp)
    && (forall i :: 0 <= i < |tx.packets| ==> 0 < |tx.packets[i]| <= tx.maxPacket)
    && |Flat(tx.packets)| <= tx.granted
    && tx.window == (tx.granted - |Flat(tx.packets)|) % 0x1_0000_0000
  }

  lemma EmptyValid(window: U32, maxPacket: U32, sftp: bool)
    ensures Valid(Empty(window, maxPacket), sftp)
  {
  }

  lemma ShipKeeps(tx: Transmit, sftp: bool)
    requires Valid(tx, sftp)
    ensures Valid(Ship(tx), sftp)
  {
    hide R.Valid, Flat, Output;
    var n := ShipLength(tx);
    if n != 0 {
      FlatSnoc(tx.packets, tx.ascending[..n]);
      assert Flat(tx.packets) + tx.ascending[..n] + tx.ascending[n..] == Flat(tx.packets) + tx.ascending;
      LessWindow(tx.granted - |Flat(tx.packets)|, n);
    }
  }

  lemma LessWindow(have: nat, n: nat)
    requires n <= have % 0x1_0000_0000
    ensures n <= have && (have - n) % 0x1_0000_0000 == have % 0x1_0000_0000 - n
  {
  }

  lemma GrantKeeps(tx: Transmit, n: U32, sftp: bool)
    requires Valid(tx, sftp)
    ensures Valid(Grant(tx, n), sftp)
  {
    hide R.Valid, Flat, Output;
    MoreWindow(tx.granted - |Flat(tx.packets)|, n);
  }

  lemma MoreWindow(have: nat, n: nat)
    ensures (have + n) % 0x1_0000_0000 == (have % 0x1_0000_0000 + n) % 0x1_0000_0000
  {
  }

  lemma GotStep(s: R.State)
    ensures var t := R.GetStep(s);
      t.got == s.got || (t.got == s.got + [t.got[|s.got|]])
  {
  }

  lemma FetchKeeps(tx: Transmit, sftp: bool)
    requires Valid(tx, sftp)
    ensures Valid(Fetch(tx, sftp), sftp)
  {
    hide R.Valid, R.GetStep, Flat, Output, Written;
    R.ValidGet(tx.r);
    GotStep(tx.r);
    var got := R.GetStep(tx.r).got;
    if |got| > |tx.r.got| {
      OutputSnoc(tx.r.got, got[|tx.r.got|], sftp);
      var w := Written(got[|tx.r.got|].data, sftp);
      assert Flat(tx.packets) + (tx.ascending + w) == Flat(tx.packets) + tx.ascending + w;
    }
  }

  lemma WorkerPutKeeps(tx: Transmit, data: seq<Byte>, sftp: bool)
    requires Valid(tx, sftp)
    ensures Valid(WorkerPut(tx, data), sftp)
  {
    hide Flat, Output;
    R.ValidPut(tx.r, data);
  }

  // ---------------------------------------------------------- what it amounts to

  /** Data sent plus remote window is what the peer granted, exactly as long as the
      peer lets the window grow no further than 2^32 - 1; each packet fits the
      peer's limit; and the bytes sent, followed by `ascending`, are the subsystem's
      messages in the order they were put. */
  lemma SendWindowAddsUp(tx: Transmit, sftp: bool)
    requires Valid(tx, sftp)
    ensures |Flat(tx.packets)| + tx.window <= tx.granted
    ensures |Flat(tx.packets)| + tx.window == tx.granted <==> tx.granted - |Flat(tx.packets)| < TWO32
    ensures forall i :: 0 <= i < |tx.packets| ==> 0 < |tx.packets[i]| <= tx.maxPacket
    ensures Flat(tx.packets) + tx.ascending == Output(tx.r.got, sftp)
    ensures tx.r.got <= tx.r.put
  {
    hide Flat, Output;
    assert tx.r.got + tx.r.read + tx.r.write == tx.r.got + (tx.r.read + tx.r.write);
  }
}
