/** The transcript that is hashed, the keys drawn from the hash, and how the two
    roles come to the same keys (sections 7.2 and 8 of RFC 4253). */
module KeyExchange {
  import opened Bytes
  import opened Options
  import opened Buffers
  import BufferAux
  import Wire
  import N = Negotiation
  import opened Messages

  // -------------------------------------------------------------- transcript

  /** A string whose length, with the one byte put before a KEXINIT, fits 32 bits. */
  type Text = s: seq<Byte> | |s| < TWO32 - 1 witness []

  /** A number whose encoding has a 32-bit length. */
  type Number = n: nat | |Wire.EncodeMpint(n)| < TWO32 witness 0

  /** V_C, V_S, I_C, I_S (without their type byte), K_S, e, f and K. */
  datatype Exchange = Exchange(
    clientVersion: Text, serverVersion: Text, clientInit: Text, serverInit: Text,
    hostKey: Text, e: Number, f: Number, k: Number)

  /** A KEXINIT behind its faked header. */
  function InitString(init: Text): (w: seq<Byte>) {
    PutU32(|init| + 1) + [MSG_KEXINIT] + init
  }

  function Mpint(n: Number): (w: seq<Byte>) {
    Wire.PutString(Wire.EncodeMpint(n))
  }

  function Transcript(x: Exchange): (w: seq<Byte>) {
    Wire.PutString(x.clientVersion) + (Wire.PutString(x.serverVersion)
    + (InitString(x.clientInit) + (InitString(x.serverInit)
    + (Wire.PutString(x.hostKey) + (Mpint(x.e) + (Mpint(x.f) + Mpint(x.k)))))))
  }

  /** The faked header makes the packet a string that starts with its type. */
  lemma InitIsString(init: Text)
    ensures InitString(init) == Wire.PutString([MSG_KEXINIT] + init)
  {
  }

  lemma InitPrefixFree(s: Text, x: seq<Byte>, t: Text, y: seq<Byte>)
    requires InitString(s) + x == InitString(t) + y
    ensures s == t && x == y
  {
    InitIsString(s);
    InitIsString(t);
    Wire.StringPrefixFree([MSG_KEXINIT] + s, x, [MSG_KEXINIT] + t, y);
    assert ([MSG_KEXINIT] + s)[1..] == s && ([MSG_KEXINIT] + t)[1..] == t;
  }

  /** Mpints are self-delimiting and equal only for equal numbers. */
  lemma MpintPrefixFree(m: Number, x: seq<Byte>, n: Number, y: seq<Byte>)
    requires Mpint(m) + x == Mpint(n) + y
    ensures m == n && x == y
  {
    Wire.StringPrefixFree(Wire.EncodeMpint(m), x, Wire.EncodeMpint(n), y);
    Wire.EncodeMpintValue(m);
    Wire.EncodeMpintValue(n);
  }

  lemma NumbersInjective(x: Exchange, y: Exchange)
    requires Mpint(x.e) + (Mpint(x.f) + Mpint(x.k)) == Mpint(y.e) + (Mpint(y.f) + Mpint(y.k))
    ensures x.e == y.e && x.f == y.f && x.k == y.k
  {
    hide Mpint;
    MpintPrefixFree(x.e, Mpint(x.f) + Mpint(x.k), y.e, Mpint(y.f) + Mpint(y.k));
    MpintPrefixFree(x.f, Mpint(x.k), y.f, Mpint(y.k));
    assert Mpint(x.k) + [] == Mpint(x.k) && Mpint(y.k) + [] == Mpint(y.k);
    MpintPrefixFree(x.k, [], y.k, []);
  }

  /** Two exchanges are hashed over the same bytes only if they agree in all eight
      parts. */
  lemma TranscriptInjective(x: Exchange, y: Exchange)
    ensures Transcript(x) == Transcript(y) <==> x == y
  {
    hide Wire.PutString, InitString, Mpint;
    if Transcript(x) == Transcript(y) {
      var x5 := Mpint(x.e) + (Mpint(x.f) + Mpint(x.k));
      var y5 := Mpint(y.e) + (Mpint(y.f) + Mpint(y.k));
      var x4, y4 := Wire.PutString(x.hostKey) + x5, Wire.PutString(y.hostKey) + y5;
      var x3, y3 := InitString(x.serverInit) + x4, InitString(y.serverInit) + y4;
      var x2, y2 := InitString(x.clientInit) + x3, InitString(y.clientInit) + y3;
      var x1, y1 := Wire.PutString(x.serverVersion) + x2, Wire.PutString(y.serverVersion) + y2;
      Wire.StringPrefixFree(x.clientVersion, x1, y.clientVersion, y1);
      Wire.StringPrefixFree(x.serverVersion, x2, y.serverVersion, y2);
      InitPrefixFree(x.clientInit, x3, y.clientInit, y3);
      InitPrefixFree(x.serverInit, x4, y.serverInit, y4);
      Wire.StringPrefixFree(x.hostKey, x5, y.hostKey, y5);
      NumbersInjective(x, y);
    }
  }

  /** A string at the front, read by `buffer_get_string`. */
  lemma ReadsString(s: seq<Byte>, rest: seq<Byte>)
    requires |s| <= Wire.MAX_STRING
    ensures Wire.GetString(Wire.PutString(s) + rest) == Wire.Got(s, rest)
  {
    Wire.StringRoundTrip(s, rest);
  }

  /** `w` is these strings, one behind the other. */
  predicate Reads(w: seq<Byte>, strings: seq<seq<Byte>>)
    decreases |strings|
  {
    if strings == [] then w == []
    else match Wire.GetString(w)
      case Got(s, rest) => s == strings[0] && Reads(rest, strings[1..])
      case _ => false
  }

  lemma ReadsNext(s: seq<Byte>, rest: seq<Byte>, strings: seq<seq<Byte>>)
    requires |s| <= Wire.MAX_STRING && strings != [] && strings[0] == s && Reads(rest, strings[1..])
    ensures Reads(Wire.PutString(s) + rest, strings)
  {
    hide Wire.GetString, Wire.PutString;
    ReadsString(s, rest);
  }

  /** What the transcript is made of, in the order of section 8 of RFC 4253. */
  function Parts(x: Exchange): (strings: seq<seq<Byte>>) {
    [x.clientVersion, x.serverVersion, [MSG_KEXINIT] + x.clientInit, [MSG_KEXINIT] + x.serverInit,
     x.hostKey, Wire.EncodeMpint(x.e), Wire.EncodeMpint(x.f), Wire.EncodeMpint(x.k)]
  }

  /** Reading it string by string gives V_C, V_S, I_C, I_S, K_S, e, f and K, and nothing is
      left over. */
  lemma TranscriptReads(x: Exchange)
    requires forall i :: 0 <= i < 8 ==> |Parts(x)[i]| <= Wire.MAX_STRING
    ensures Reads(Transcript(x), Parts(x))
    ensures BigEndian(Parts(x)[5]) == x.e && BigEndian(Parts(x)[6]) == x.f && BigEndian(Parts(x)[7]) == x.k
  {
    hide Wire.PutString, Wire.EncodeMpint, Reads;
    var ps: seq<seq<Byte>> := Parts(x);
    NothingReads();
    assert Mpint(x.k) + [] == Mpint(x.k);
    assert |ps[7..][1..]| == 0;
    ReadsNext(ps[7], [], ps[7..]);
    ReadsNext(ps[6], Mpint(x.k), ps[6..]);
    ReadsNext(ps[5], Mpint(x.f) + Mpint(x.k), ps[5..]);
    var numbers := Mpint(x.e) + (Mpint(x.f) + Mpint(x.k));
    ReadsNext(ps[4], numbers, ps[4..]);
    InitIsString(x.clientInit);
    InitIsString(x.serverInit);
    var t4 := Wire.PutString(x.hostKey) + numbers;
    ReadsNext(ps[3], t4, ps[3..]);
    ReadsNext(ps[2], InitString(x.serverInit) + t4, ps[2..]);
    var t2 := InitString(x.clientInit) + (InitString(x.serverInit) + t4);
    ReadsNext(ps[1], t2, ps[1..]);
    ReadsNext(ps[0], Wire.PutString(x.serverVersion) + t2, ps[0..]);
    assert ps[0..] == ps;
    Wire.EncodeMpintValue(x.e);
    Wire.EncodeMpintValue(x.f);
    Wire.EncodeMpintValue(x.k);
  }

  lemma NothingReads()
    ensures Reads([], [])
  {
  }

  lemma Modest(b: Buffer, len: U32)
    requires b.Valid()
    ensures |b.Contents()| <= 0x60_0000 && len <= MAX_CHUNK ==> Appended(b.Here(), len).Some?
  {
    hide Appended;
    if |b.Contents()| <= 0x60_0000 && len <= MAX_CHUNK {
      FitsWhenModest(b.Here(), len);
    }
  }

  /** The type byte and the payload of a MSG_KEXINIT. */
  method PutTyped(b: Buffer, init: Text) returns (ok: bool)
    requires b.Valid()
    modifies b, b.buf
    ensures b.Valid() && (b.buf == old(b.buf) || fresh(b.buf))
    ensures ok ==> b.Contents() == old(b.Contents()) + ([MSG_KEXINIT] + init)
    ensures |old(b.Contents())| <= 0x20_0000 && |init| <= MAX_CHUNK ==> ok
  {
    hide Appended;
    ghost var was := b.Contents();
    Modest(b, 1);
    ok := b.Append([MSG_KEXINIT]);
    if ok {
      Modest(b, |init|);
      ok := b.Append(init);
      assert was + [MSG_KEXINIT] + init == was + ([MSG_KEXINIT] + init);
    }
  }

  method PutInit(b: Buffer, init: Text) returns (ok: bool)
    requires b.Valid()
    modifies b, b.buf
    ensures b.Valid() && (b.buf == old(b.buf) || fresh(b.buf))
    ensures ok ==> b.Contents() == old(b.Contents()) + InitString(init)
    ensures |old(b.Contents())| <= MAX_CHUNK && |init| <= MAX_CHUNK ==> ok
  {
    hide Appended, PutU32;
    ghost var was := b.Contents();
    ok := BufferAux.PutInt(b, |init| + 1);
    if ok {
      ok := PutTyped(b, init);
      assert was + PutU32(|init| + 1) + ([MSG_KEXINIT] + init) == was + InitString(init);
    }
  }

  lemma MpintLength(n: Number)
    ensures |Mpint(n)| == 4 + |Wire.EncodeMpint(n)|
  {
    hide Wire.EncodeMpint;
  }

  method PutNumbers(b: Buffer, e: Number, f: Number, k: Number) returns (ok: bool)
    requires b.Valid()
    modifies b, b.buf
    ensures b.Valid() && (b.buf == old(b.buf) || fresh(b.buf))
    ensures ok ==> b.Contents() == old(b.Contents()) + (Mpint(e) + (Mpint(f) + Mpint(k)))
    ensures |old(b.Contents())| <= MAX_CHUNK && |Mpint(e)| + |Mpint(f)| + |Mpint(k)| <= MAX_CHUNK ==> ok
  {
    hide Wire.PutString, Wire.EncodeMpint;
    ghost var was := b.Contents();
    MpintLength(e);
    ok := BufferAux.PutBignum2(b, e);
    if !ok { return; }
    ok := PutTwo(b, f, k);
    assert was + Mpint(e) + (Mpint(f) + Mpint(k)) == was + (Mpint(e) + (Mpint(f) + Mpint(k)));
  }

  method PutTwo(b: Buffer, f: Number, k: Number) returns (ok: bool)
    requires b.Valid()
    modifies b, b.buf
    ensures b.Valid() && (b.buf == old(b.buf) || fresh(b.buf))
    ensures ok ==> b.Contents() == old(b.Contents()) + (Mpint(f) + Mpint(k))
    ensures |old(b.Contents())| <= 0x20_0000 && |Mpint(f)| <= MAX_CHUNK && |Mpint(k)| <= MAX_CHUNK ==> ok
  {
    hide Wire.PutString, Wire.EncodeMpint;
    ghost var was := b.Contents();
    MpintLength(f);
    MpintLength(k);
    ok := BufferAux.PutBignum2(b, f);
    if ok {
      ok := BufferAux.PutBignum2(b, k);
      assert was + Mpint(f) + Mpint(k) == was + (Mpint(f) + Mpint(k));
    }
  }

  method PutInits(b: Buffer, c: Text, s: Text) returns (ok: bool)
    requires b.Valid()
    modifies b, b.buf
    ensures b.Valid() && (b.buf == old(b.buf) || fresh(b.buf))
    ensures ok ==> b.Contents() == old(b.Contents()) + InitString(c) + InitString(s)
    ensures |old(b.Contents())| + |InitString(c)| <= MAX_CHUNK && |c| <= MAX_CHUNK && |s| <= MAX_CHUNK ==> ok
  {
    hide InitString;
    ok := PutInit(b, c);
    if ok { ok := PutInit(b, s); }
  }

  method PutVersions(b: Buffer, c: Text, s: Text) returns (ok: bool)
    requires b.Valid() && b.Contents() == []
    modifies b, b.buf
    ensures b.Valid() && (b.buf == old(b.buf) || fresh(b.buf))
    ensures ok ==> b.Contents() == Wire.PutString(c) + Wire.PutString(s)
    ensures |Wire.PutString(c)| <= MAX_CHUNK && |c| <= MAX_CHUNK && |s| <= MAX_CHUNK ==> ok
  {
    hide Wire.PutString;
    ok := BufferAux.PutString(b, c);
    if ok {
      assert [] + Wire.PutString(c) == Wire.PutString(c);
      ok := BufferAux.PutString(b, s);
    }
  }

  lemma FlatSum(a: seq<Byte>, b: seq<Byte>, c: seq<Byte>, d: seq<Byte>, e: seq<Byte>, f: seq<Byte>)
    ensures a + b + c + d + e + f == a + (b + (c + (d + (e + f))))
  {
  }

  lemma PartsShort(x: Exchange)
    requires |Transcript(x)| <= MAX_CHUNK
    ensures |Wire.PutString(x.clientVersion)| + |Wire.PutString(x.serverVersion)| + |InitString(x.clientInit)|
      + |InitString(x.serverInit)| + |Wire.PutString(x.hostKey)| + |Mpint(x.e)| + |Mpint(x.f)|
      + |Mpint(x.k)| <= MAX_CHUNK
    ensures |x.clientVersion| <= MAX_CHUNK && |x.serverVersion| <= MAX_CHUNK && |x.clientInit| <= MAX_CHUNK
    ensures |x.serverInit| <= MAX_CHUNK && |x.hostKey| <= MAX_CHUNK
  {
    hide Wire.EncodeMpint;
  }

  /** `kex_dh_hash` up to the digest: the buffer that is hashed, always built when the
      parts are no longer than a chunk together. */
  method KexDhTranscript(x: Exchange) returns (ok: bool, b: Buffer)
    ensures fresh(b) && fresh(b.buf) && b.Valid()
    ensures ok ==> b.Contents() == Transcript(x)
    ensures |Transcript(x)| <= MAX_CHUNK ==> ok
  {
    hide Wire.PutString, InitString, Mpint;
    b := new Buffer();
    if |Transcript(x)| <= MAX_CHUNK {
      PartsShort(x);
    }
    ok := PutVersions(b, x.clientVersion, x.serverVersion);
    if !ok { return; }
    ok := PutInits(b, x.clientInit, x.serverInit);
    if !ok { return; }
    ok := BufferAux.PutString(b, x.hostKey);
    if !ok { return; }
    ok := PutNumbers(b, x.e, x.f, x.k);
    FlatSum(Wire.PutString(x.clientVersion), Wire.PutString(x.serverVersion), InitString(x.clientInit),
            InitString(x.serverInit), Wire.PutString(x.hostKey), Mpint(x.e) + (Mpint(x.f) + Mpint(x.k)));
  }

  // ------------------------------------------------------------ key derivation

  /** A hash: the length of its digest, and its byte `i` for each input. */
  datatype Hash = Hash(size: nat, at: (seq<Byte>, nat) -> Byte)

  function Digest(h: Hash, m: seq<Byte>): (d: seq<Byte>)
    ensures |d| == h.size
  {
    seq(h.size, i requires 0 <= i < h.size => h.at(m, i))
  }

  /** What every key of one exchange comes from: the hash, K as an mpint, H and
      the session id. */
  datatype Source = Source(hash: Hash, secret: seq<Byte>, exchangeHash: seq<Byte>, sessionId: seq<Byte>)

  /** K1 || ... || Kn of section 7.2 of RFC 4253, for the letter `id`. */
  function KeyStream(s: Source, id: Byte, n: nat): (k: seq<Byte>)
    ensures |k| == n * s.hash.size
  {
    if n == 0 then []
    else if n == 1 then Digest(s.hash, s.secret + s.exchangeHash + [id] + s.sessionId)
    else
      var have := KeyStream(s, id, n - 1);
      have + Digest(s.hash, s.secret + s.exchangeHash + have)
  }

  /** A longer stream only extends a shorter one. */
  lemma {:induction false} LongerExtends(s: Source, id: Byte, m: nat, n: nat)
    requires m <= n
    ensures KeyStream(s, id, m) <= KeyStream(s, id, n)
    decreases n
  {
    if m < n {
      LongerExtends(s, id, m, n - 1);
    }
  }

  /** How many digests cover `need` bytes. */
  function Blocks(need: nat, size: nat): (n: nat)
    requires size > 0
  {
    (need + size - 1) / size
  }

  lemma TimesAtMost(m: int, n: int, k: int)
    requires k > 0 && m <= n
    ensures m * k <= n * k
  {
  }

  /** They are as few as can be, and whole digests that do not reach `need` leave
      room for one more. */
  lemma BlocksCover(need: nat, size: nat, n: nat)
    requires size > 0
    ensures need <= Blocks(need, size) * size < need + size
    ensures n * size < need <==> n < Blocks(need, size)
    ensures n * size < need ==> (n + 1) * size <= Blocks(need, size) * size
  {
    var q := Blocks(need, size);
    assert need + size - 1 == q * size + (need + size - 1) % size;
    if n < q {
      TimesAtMost(n + 1, q, size);
      assert (n + 1) * size == n * size + size;
    } else {
      TimesAtMost(q, n, size);
    }
  }

  lemma BlocksGrow(need: nat, more: nat, size: nat)
    requires size > 0 && need <= more
    ensures Blocks(need, size) <= Blocks(more, size)
  {
    BlocksCover(need, size, Blocks(more, size));
    BlocksCover(more, size, Blocks(more, size));
  }

  /** The key for the letter `id`. */
  function Key(s: Source, id: Byte, need: nat): (k: seq<Byte>)
    requires s.hash.size > 0
  {
    KeyStream(s, id, Blocks(need, s.hash.size))
  }

  /** It has the bytes needed, and a longer need starts with a shorter one's key. */
  lemma KeyExtends(s: Source, id: Byte, need: nat, more: nat)
    requires s.hash.size > 0 && need <= more
    ensures need <= |Key(s, id, need)| < need + s.hash.size
    ensures Key(s, id, need) <= Key(s, id, more)
  {
    BlocksCover(need, s.hash.size, 0);
    BlocksGrow(need, more, s.hash.size);
    LongerExtends(s, id, Blocks(need, s.hash.size), Blocks(more, s.hash.size));
  }

  /** `key` is what section 7.2 of RFC 4253 asks for: K1 = HASH(K || H || letter || session id),
      each further digest over K, H and all before it, and just enough of them. */
  ghost predicate DerivedFrom(key: seq<Byte>, s: Source, letter: Byte, need: nat) {
    var size := s.hash.size;
    && 0 < size <= |key| && |key| % size == 0 && need <= |key| < need + size
    && key[..size] == Digest(s.hash, s.secret + s.exchangeHash + [letter] + s.sessionId)
    && forall i, j :: size <= i && j == i + size && j <= |key| && i % size == 0 ==>
         key[i..j] == Digest(s.hash, s.secret + s.exchangeHash + key[..i])
  }

  lemma {:induction false} StreamDerived(s: Source, letter: Byte, n: nat, i: nat)
    requires 1 <= i < n && s.hash.size > 0
    ensures (i + 1) * s.hash.size <= n * s.hash.size && i * s.hash.size + s.hash.size == (i + 1) * s.hash.size
    ensures var key, at := KeyStream(s, letter, n), i * s.hash.size;
      key[at..at + s.hash.size] == Digest(s.hash, s.secret + s.exchangeHash + key[..at])
    decreases n
  {
    hide Digest;
    var size, have := s.hash.size, KeyStream(s, letter, n - 1);
    TimesAtMost(i + 1, n, size);
    KeyStreamNext(s, letter, n - 1);
    if i < n - 1 {
      StreamDerived(s, letter, n - 1, i);
      var key, at := KeyStream(s, letter, n), i * size;
      assert key[at..at + size] == have[at..at + size] && key[..at] == have[..at];
    }
  }

  lemma {:induction false} StreamBegins(s: Source, letter: Byte, n: nat)
    requires n >= 1 && s.hash.size > 0
    ensures s.hash.size <= n * s.hash.size
    ensures KeyStream(s, letter, n)[..s.hash.size]
         == Digest(s.hash, s.secret + s.exchangeHash + [letter] + s.sessionId)
  {
    hide Digest;
    KeyStreamFirst(s, letter);
    LongerExtends(s, letter, 1, n);
    TimesAtMost(1, n, s.hash.size);
    assert KeyStream(s, letter, 1)[..s.hash.size] == KeyStream(s, letter, 1);
  }

  lemma MultipleOf(i: nat, size: nat) returns (q: nat)
    requires size > 0 && i % size == 0
    ensures i == q * size
  {
    q := i / size;
  }

  lemma ModOf(a: nat, q: nat, size: nat)
    requires size > 0 && a == q * size
    ensures a % size == 0
  {
    assert a == a / size * size + a % size;
    assert (q - a / size) * size == a % size;
    SmallMultiple(q - a / size, size);
  }

  lemma SmallMultiple(d: int, size: nat)
    requires size > 0 && 0 <= d * size < size
    ensures d == 0
  {
  }

  /** The key is derived that way, byte for byte. */
  lemma KeyIsDerived(s: Source, letter: Byte, need: nat)
    requires s.hash.size > 0 && need > 0
    ensures DerivedFrom(Key(s, letter, need), s, letter, need)
  {
    hide KeyStream, Digest, Blocks;
    var size := s.hash.size;
    var n := Blocks(need, size);
    BlocksCover(need, size, 0);
    StreamBegins(s, letter, n);
    ModOf(n * size, n, size);
    var key := Key(s, letter, need);
    forall i, j | size <= i && j == i + size && j <= |key| && i % size == 0
      ensures key[i..j] == Digest(s.hash, s.secret + s.exchangeHash + key[..i])
    {
      var q := MultipleOf(i, size);
      MultipleBelow(q, n, size);
      StreamDerived(s, letter, n, q);
    }
  }

  lemma MultipleBelow(q: nat, n: nat, size: nat)
    requires size > 0 && size <= q * size && q * size + size <= n * size
    ensures 1 <= q < n
  {
    if q >= n {
      TimesAtMost(n, q, size);
    }
  }

  /** The inputs of the six first digests are different, so that a hash that tells them
      apart makes six different keys. */
  lemma LettersGiveInputs(s: Source, a: Byte, b: Byte)
    requires a != b
    ensures s.secret + s.exchangeHash + [a] + s.sessionId != s.secret + s.exchangeHash + [b] + s.sessionId
  {
    var n := |s.secret + s.exchangeHash|;
    assert (s.secret + s.exchangeHash + [a] + s.sessionId)[n] == a;
    assert (s.secret + s.exchangeHash + [b] + s.sessionId)[n] == b;
  }

  /** `EVP_DigestFinal (&md, digest + have, NULL)`. */
  method DigestFinal(digest: array<Byte>, have: nat, h: Hash, m: seq<Byte>)
    requires have + h.size <= digest.Length
    modifies digest
    ensures digest[..have] == old(digest[..have])
    ensures digest[..have + h.size] == digest[..have] + Digest(h, m)
  {
    ghost var was := digest[..have];
    forall i | 0 <= i < h.size {
      digest[have + i] := Digest(h, m)[i];
    }
    assert digest[..have] == was;
    assert digest[have..have + h.size] == Digest(h, m);
    assert digest[..have + h.size] == digest[..have] + digest[have..have + h.size];
  }

  /** One more digest over all there is. */
  method Expand(digest: array<Byte>, have: nat, s: Source, id: Byte, ghost n: nat)
    requires n >= 1 && have + s.hash.size <= digest.Length && digest[..have] == KeyStream(s, id, n)
    modifies digest
    ensures digest[..have + s.hash.size] == KeyStream(s, id, n + 1)
  {
    hide KeyStream, Digest;
    KeyStreamNext(s, id, n);
    DigestFinal(digest, have, s.hash, s.secret + s.exchangeHash + digest[..have]);
  }

  /** `derive_key`: nothing is written past the rounded-up allocation, and all of it
      is filled.  A need of 0 would overrun it; `we_need` never is.  The sum is that
      of the unsigned `roundup`. */
  method DeriveKey(s: Source, id: Byte, need: nat) returns (r: Option<array<Byte>>)
    requires 0 < need && need + s.hash.size <= TWO32
    ensures r.Some? <==> s.hash.size > 0
    ensures r.Some? ==> fresh(r.value) && r.value[..] == Key(s, id, need)
    ensures r.Some? ==> DerivedFrom(r.value[..], s, id, need)
  {
    hide KeyStream, Digest, Blocks, DerivedFrom;
    var mdsz := s.hash.size;
    if mdsz <= 0 {
      return None;
    }
    BlocksCover(need, mdsz, 0);
    BlocksCover(need, mdsz, 1);
    var digest := new Byte[Blocks(need, mdsz) * mdsz](_ => 0);
    KeyStreamFirst(s, id);
    DigestFinal(digest, 0, s.hash, s.secret + s.exchangeHash + [id] + s.sessionId);
    assert digest[..0] == [];
    var have := mdsz;
    ghost var n := 1;
    while need > have
      invariant n >= 1 && have == n * mdsz && n <= Blocks(need, mdsz) && have <= digest.Length
      invariant digest[..have] == KeyStream(s, id, n)
      decreases digest.Length - have
    {
      BlocksCover(need, mdsz, n);
      assert (n + 1) * mdsz == have + mdsz;
      Expand(digest, have, s, id, n);
      have := have + mdsz;
      n := n + 1;
    }
    BlocksCover(need, mdsz, n);
    assert n == Blocks(need, mdsz);
    assert digest[..] == digest[..have];
    KeyIsDerived(s, id, need);
    return Some(digest);
  }

  lemma KeyStreamFirst(s: Source, id: Byte)
    ensures KeyStream(s, id, 1) == Digest(s.hash, s.secret + s.exchangeHash + [id] + s.sessionId)
  {
  }

  lemma KeyStreamNext(s: Source, id: Byte, n: nat)
    requires n >= 1
    ensures KeyStream(s, id, n + 1) == KeyStream(s, id, n)
      + Digest(s.hash, s.secret + s.exchangeHash + KeyStream(s, id, n))
  {
  }

  // ---------------------------------------------------------------- both roles

  datatype ModeKeys = ModeKeys(iv: seq<Byte>, key: seq<Byte>, macKey: seq<Byte>)

  /** The keys of one direction: the letters A, C, E from client to server, and B, D,
      F back (section 7.2 of RFC 4253). */
  function DirectionKeys(s: Source, need: nat, ctos: bool): (k: ModeKeys)
    requires s.hash.size > 0
  {
    if ctos then ModeKeys(Key(s, 65, need), Key(s, 67, need), Key(s, 69, need))
    else ModeKeys(Key(s, 66, need), Key(s, 68, need), Key(s, 70, need))
  }

  /** IV, key and MAC key come from these letters. */
  ghost predicate Lettered(k: ModeKeys, s: Source, iv: char, key: char, mac: char, need: nat)
    requires iv < 'Z' && key < 'Z' && mac < 'Z'
  {
    && DerivedFrom(k.iv, s, iv as int, need) && DerivedFrom(k.key, s, key as int, need)
    && DerivedFrom(k.macKey, s, mac as int, need)
  }

  /** From client to server A, C and E, and back B, D and F. */
  lemma DirectionsLettered(s: Source, need: nat)
    requires s.hash.size > 0 && need > 0
    ensures Lettered(DirectionKeys(s, need, true), s, 'A', 'C', 'E', need)
    ensures Lettered(DirectionKeys(s, need, false), s, 'B', 'D', 'F', need)
  {
    hide Key, DerivedFrom;
    KeyIsDerived(s, 65, need);
    KeyIsDerived(s, 66, need);
    KeyIsDerived(s, 67, need);
    KeyIsDerived(s, 68, need);
    KeyIsDerived(s, 69, need);
    KeyIsDerived(s, 70, need);
  }

  /** The hash tells the six letters apart. */
  ghost predicate TellsApart(s: Source) {
    forall a: Byte, b: Byte :: 65 <= a < b <= 70 ==>
      Digest(s.hash, s.secret + s.exchangeHash + [a] + s.sessionId)
      != Digest(s.hash, s.secret + s.exchangeHash + [b] + s.sessionId)
  }

  /** With such a hash no two of the six keys are the same. */
  lemma SixKeys(s: Source, need: nat, x: seq<Byte>, y: seq<Byte>, a: Byte, b: Byte)
    requires s.hash.size > 0 && need > 0 && TellsApart(s) && 65 <= a < b <= 70
    requires DerivedFrom(x, s, a, need) && DerivedFrom(y, s, b, need)
    ensures x != y
  {
    hide Digest;
  }

  /** `kex_derive_keys`: current_keys by mode, MODE_IN first. */
  method KexDeriveKeys(server: bool, s: Source, need: nat) returns (r: Option<seq<ModeKeys>>)
    requires 0 < need && need + s.hash.size <= TWO32
    ensures r.Some? <==> s.hash.size > 0
    ensures r.Some? ==> r.value == [DirectionKeys(s, need, server), DirectionKeys(s, need, !server)]
    ensures r.Some? ==> Lettered(r.value[if server then 0 else 1], s, 'A', 'C', 'E', need)
    ensures r.Some? ==> Lettered(r.value[if server then 1 else 0], s, 'B', 'D', 'F', need)
  {
    hide Key, DerivedFrom;
    if s.hash.size > 0 {
      DirectionsLettered(s, need);
    }
    var keys: seq<seq<Byte>> := [];
    var i := 0;
    while i < 6
      invariant 0 <= i == |keys| <= 6 && (i > 0 ==> s.hash.size > 0)
      invariant forall j :: 0 <= j < i ==> keys[j] == Key(s, 65 + j, need)
    {
      var key := DeriveKey(s, 65 + i, need);
      match key {
        case None => return None;
        case Some(k) => keys := keys + [k[..]];
      }
      i := i + 1;
    }
    var current: seq<ModeKeys> := [];
    var mode := 0;
    while mode < 2
      invariant 0 <= mode == |current| <= 2
      invariant forall m :: 0 <= m < mode ==> current[m] == DirectionKeys(s, need, N.ClientToServer(server, m))
    {
      var ctos := N.ClientToServer(server, mode);
      current := current + [ModeKeys(keys[if ctos then 0 else 1], keys[if ctos then 2 else 3],
                                     keys[if ctos then 4 else 5])];
      mode := mode + 1;
    }
    return Some(current);
  }

  /** All a side has for one direction: what to use, and the keys for it. */
  datatype Newkeys = Newkeys(suite: N.Suite, keys: ModeKeys)

  predicate LongEnough(n: Newkeys) {
    && |n.keys.iv| >= n.suite.enc.blockSize && |n.keys.key| >= n.suite.enc.keyLen
    && |n.keys.macKey| >= n.suite.mac.keyLen
  }

  lemma KeysLongEnough(client: N.Proposal, server: N.Proposal, s: Source)
    requires s.hash.size > 0 && N.Negotiated(client, server).Some?
    ensures var a := N.Negotiated(client, server).value;
      && LongEnough(Newkeys(a.ctos, DirectionKeys(s, a.need, true)))
      && LongEnough(Newkeys(a.stoc, DirectionKeys(s, a.need, false)))
  {
    hide N.SuiteOf, N.Pick, N.KexByName, N.KeyTypeByName, Key;
    var a := N.Negotiated(client, server).value;
    KeyExtends(s, 65, a.need, a.need);
    KeyExtends(s, 66, a.need, a.need);
    KeyExtends(s, 67, a.need, a.need);
    KeyExtends(s, 68, a.need, a.need);
    KeyExtends(s, 69, a.need, a.need);
    KeyExtends(s, 70, a.need, a.need);
  }

  /** One exchange: both proposals, the shared secret, the exchange hash and the id of
      the session. */
  datatype Kex = Kex(client: N.Proposal, server: N.Proposal, k: Number, hash: seq<Byte>, sessionId: seq<Byte>)

  /** What one side has after it; none if it ends there.  `md` is the hash of each
      key exchange method. */
  datatype Current = Current(incoming: Newkeys, outgoing: Newkeys)

  function Rekeyed(server: bool, x: Kex, md: N.KexType -> Hash): (r: Option<Current>) {
    match N.Negotiated(x.client, x.server)
    case None => None
    case Some(a) =>
      var s, v := Source(md(a.kex), Mpint(x.k), x.hash, x.sessionId), N.Viewed(server, a);
      if s.hash.size == 0 then None
      else Some(Current(Newkeys(v.incoming, DirectionKeys(s, a.need, server)),
                        Newkeys(v.outgoing, DirectionKeys(s, a.need, !server))))
  }

  /** Negotiation and derivation of one side. */
  method Rekey(server: bool, x: Kex, md: N.KexType -> Hash) returns (r: Option<Current>)
    requires forall t: N.KexType :: md(t).size <= 64
    ensures r == Rekeyed(server, x, md)
  {
    hide N.Negotiated, DirectionKeys;
    var my, peer := x.client, x.server;
    if server {
      my, peer := x.server, x.client;
    }
    var conf := N.KexChooseConf(server, my, peer);
    match conf
    case None => return None;
    case Some(c) =>
      N.NeedInRange(x.client, x.server);
      var keys := KexDeriveKeys(server, Source(md(c.kex), Mpint(x.k), x.hash, x.sessionId), c.weNeed);
      match keys
      case None => return None;
      case Some(ks) => return Some(Current(Newkeys(c.incoming, ks[0]), Newkeys(c.outgoing, ks[1])));
  }

  /** The two sides of an exchange both end, or each one's outgoing algorithms and keys
      are the other's incoming ones, and every key is long enough for its algorithm. */
  lemma KeysMeet(x: Kex, md: N.KexType -> Hash)
    ensures var c, s := Rekeyed(false, x, md), Rekeyed(true, x, md);
      && (c.Some? <==> s.Some?)
      && (c.Some? ==>
            && c.value.outgoing == s.value.incoming && c.value.incoming == s.value.outgoing
            && LongEnough(c.value.outgoing) && LongEnough(c.value.incoming))
  {
    hide N.Negotiated, DirectionKeys, LongEnough, Mpint;
    var a := N.Negotiated(x.client, x.server);
    if a.Some? && md(a.value.kex).size > 0 {
      KeysLongEnough(x.client, x.server, Source(md(a.value.kex), Mpint(x.k), x.hash, x.sessionId));
    }
  }
}
