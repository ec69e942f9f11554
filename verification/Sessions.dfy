/** A connection whose two sides each derive their own keys, exchange after exchange:
    the round trip of Stream, resting on what negotiation settles. */
module Sessions {
  import opened Options
  import opened Bytes
  import opened Cipher
  import opened Packets
  import opened RekeyQueue
  import opened Stream
  import opened KeyExchange
  import N = Negotiation

  /** The foreign code: digests, block ciphers and MACs, by name and key. */
  datatype Primitives = Primitives(
    md: N.KexType -> Hash,
    cipher: (N.Name, seq<Byte>) -> BlockFunction,
    mac: (N.Name, seq<Byte>) -> ((U32, seq<Byte>, int) -> Byte))

  /** What `set_newkeys` installs, for a cipher in counter mode. */
  function Installed(n: Newkeys, p: Primitives): (k: Keys) {
    Keys(p.cipher(n.suite.enc.name, n.keys.key), if |n.keys.iv| < 16 then n.keys.iv else n.keys.iv[..16],
         p.mac(n.suite.mac.name, n.keys.macKey), n.suite.mac.macLen, true)
  }

  /** The keys a side sends under after the exchange `x`, none if it ended there. */
  function Outgoing(server: bool, x: Kex, p: Primitives): (k: Option<Keys>) {
    match Rekeyed(server, x, p.md) case None => None case Some(c) => Some(Installed(c.outgoing, p))
  }

  function Incoming(server: bool, x: Kex, p: Primitives): (k: Option<Keys>) {
    match Rekeyed(server, x, p.md) case None => None case Some(c) => Some(Installed(c.incoming, p))
  }

  /** What one side sends under the other reads under. */
  lemma SidesMeet(server: bool, x: Kex, p: Primitives)
    ensures Outgoing(server, x, p) == Incoming(!server, x, p)
  {
    hide Rekeyed, LongEnough;
    KeysMeet(x, p.md);
  }

  /** What a side sends under: the cipher and MAC chosen for its direction, with the keys
      of that direction's letters and the first block of its IV. */
  lemma KeysOfDirection(server: bool, x: Kex, p: Primitives) returns (k: ModeKeys)
    requires Outgoing(server, x, p).Some?
    ensures N.Negotiated(x.client, x.server).Some?
    ensures var a, out := N.Negotiated(x.client, x.server).value, Outgoing(server, x, p).value;
      var suite, s := if server then a.stoc else a.ctos, Source(p.md(a.kex), Mpint(x.k), x.hash, x.sessionId);
      && (if server then Lettered(k, s, 'B', 'D', 'F', a.need) else Lettered(k, s, 'A', 'C', 'E', a.need))
      && out.aes == p.cipher(suite.enc.name, k.key) && out.mac == p.mac(suite.mac.name, k.macKey)
      && out.iv == (if |k.iv| < 16 then k.iv else k.iv[..16])
      && out.macLen == suite.mac.macLen && out.macEnabled
  {
    hide N.Negotiated, Key, DerivedFrom, Mpint;
    var a := N.Negotiated(x.client, x.server).value;
    var s := Source(p.md(a.kex), Mpint(x.k), x.hash, x.sessionId);
    N.NeedInRange(x.client, x.server);
    DirectionsLettered(s, a.need);
    k := DirectionKeys(s, a.need, !server);
  }

  /** Stands for the keys of an exchange that failed, which nobody uses. */
  const NO_KEYS := Keys((_, _) => 0, [], (_, _, _) => 0, 0, false)

  function KeysAt(server: bool, x: Kex, p: Primitives): (k: Keys) {
    var k := Outgoing(server, x, p);
    if k.Some? then k.value else NO_KEYS
  }

  /** One move of a sender in the role `server` and a reader in the other, exchange `e`
      being `xs(e)` on both sides; a failed exchange derives nothing. */
  function SideStep(l: Link, a: Move, server: bool, xs: nat -> Kex, p: Primitives): (t: Link)
    requires InShape(l.rcv)
    ensures InShape(t.rcv)
  {
    match a
    case DeriveOut =>
      (match Outgoing(server, xs(l.snd.out.cursor.epoch), p)
       case None => l
       case Some(k) => l.(snd := Derive(l.snd, k)))
    case DeriveIn =>
      (match Incoming(!server, xs(l.base.epoch), p)
       case None => l
       case Some(k) => if l.rcv.status.Closed? then l else l.(rcv := l.rcv.(slot := Some(k))))
    case _ => MoveStep(l, a, _ => NO_KEYS)
  }

  function SideRun(l: Link, actions: seq<Move>, server: bool, xs: nat -> Kex, p: Primitives): (t: Link)
    requires InShape(l.rcv)
    decreases |actions|
  {
    if actions == [] then l
    else SideRun(SideStep(l, actions[0], server, xs, p), actions[1..], server, xs, p)
  }

  /** The one schedule both sides follow. */
  ghost function Shared(server: bool, xs: nat -> Kex, p: Primitives): (ks: Schedule) {
    (e: nat) => KeysAt(server, xs(e), p)
  }

  /** A step with separate keys is a step of the shared schedule, or nothing. */
  lemma StepShared(l: Link, a: Move, server: bool, xs: nat -> Kex, p: Primitives)
    requires InShape(l.rcv)
    ensures var t := SideStep(l, a, server, xs, p); t == l || t == MoveStep(l, a, Shared(server, xs, p))
  {
    hide Outgoing, Incoming;
    match a
    case DeriveIn => SidesMeet(server, xs(l.base.epoch), p);
    case _ =>
  }

  lemma {:induction false} RunShared(l: Link, actions: seq<Move>, server: bool, xs: nat -> Kex, p: Primitives)
    returns (shared: seq<Move>)
    requires InShape(l.rcv)
    ensures SideRun(l, actions, server, xs, p) == Moves(l, shared, Shared(server, xs, p))
    decreases |actions|
  {
    hide SideStep, MoveStep, Shared;
    if actions == [] {
      shared := [];
    } else {
      var ks, t := Shared(server, xs, p), SideStep(l, actions[0], server, xs, p);
      StepShared(l, actions[0], server, xs, p);
      var rest := RunShared(t, actions[1..], server, xs, p);
      if t == l {
        shared := rest;
      } else {
        shared := [actions[0]] + rest;
        assert shared[1..] == rest;
      }
    }
  }

  /** The round trip between two sides that negotiate and derive for themselves: for any
      exchanges, any packets, any chunking and either direction, the reader has
      returned exactly the first packets sent, in order and numbered from zero, and
      has given up only on a limit that the next packet breaks. */
  lemma NegotiatedRoundTrip(server: bool, xs: nat -> Kex, p: Primitives, random: nat -> U32, actions: seq<Move>)
    ensures var l := SideRun(Initial(random), actions, server, xs, p);
      && InStep(l.got, l.snd.out.log)
      && (l.rcv.status.Closed? ==>
            && |l.got| < |l.snd.out.log|
            && Fault(l.base, l.snd.out.log[|l.got|], l.rcv.slot) == Some(l.rcv.status.why))
  {
    hide SideStep, MoveStep, Shared, InStep, Fault;
    var l, ks := SideRun(Initial(random), actions, server, xs, p), Shared(server, xs, p);
    var shared := RunShared(Initial(random), actions, server, xs, p);
    assert l == Moves(Initial(random), shared, ks);
    StreamRoundTrip(l, ks);
  }
}
