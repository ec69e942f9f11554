/** The ten name lists of a KEXINIT packet, written by `kex_prop2buf` and read by
    `kex_buf2prop` (section 7.1 of RFC 4253). */
module Proposals {
  import opened Bytes
  import opened Options
  import opened Buffers
  import BufferAux
  import Wire

  const COOKIE: nat := 16
  const PROPOSALS: nat := 10

  /** A C string: no byte of it is 0. */
  type CString = s: seq<Byte> | 0 !in s && |s| < TWO32 witness []

  function Strings(ss: seq<CString>): (w: seq<Byte>) {
    if ss == [] then [] else Wire.PutString(ss[0]) + Strings(ss[1..])
  }

  /** The payload with the given cookie; `kex_prop2buf` itself writes zeros. */
  function Payload(cookie: seq<Byte>, p: seq<CString>): (w: seq<Byte>) {
    cookie + Strings(p) + [0] + PutU32(0)
  }

  /** A received string as a C string. */
  function UpToNul(s: seq<Byte>): (c: seq<Byte>)
    ensures 0 !in c && |c| <= |s|
  {
    if s == [] || s[0] == 0 then [] else [s[0]] + UpToNul(s[1..])
  }

  lemma {:induction false} UpToNulWhole(s: seq<Byte>)
    requires 0 !in s
    ensures UpToNul(s) == s
  {
    if s != [] {
      assert s[0] in s;
      UpToNulWhole(s[1..]);
    }
  }

  /** `k` strings off the front; none if one of them is refused. */
  function GetStrings(w: seq<Byte>, k: nat): (r: Option<(seq<seq<Byte>>, seq<Byte>)>)
    ensures r.Some? ==> |r.value.0| == k
  {
    if k == 0 then Some(([], w))
    else match Wire.GetString(w)
      case Got(s, rest) =>
        (match GetStrings(rest, k - 1)
         case Some((ss, end)) => Some(([UpToNul(s)] + ss, end))
         case None => None)
      case _ => None
  }

  /** `kex_buf2prop`: the lists and the first_kex_packet_follows byte, or a fatal
      error; the copy it makes of the payload is limited to one chunk. */
  function Parse(raw: seq<Byte>): (r: Option<(seq<seq<Byte>>, Byte)>) {
    if |raw| > MAX_CHUNK || |raw| < COOKIE then None
    else match GetStrings(raw[COOKIE..], PROPOSALS)
      case None => None
      case Some((ss, rest)) => if |rest| < 5 then None else Some((ss, rest[0]))
  }

  predicate AllAccepted(p: seq<CString>) {
    forall i :: 0 <= i < |p| ==> |p[i]| <= Wire.MAX_STRING
  }

  lemma AcceptedFirst(p: seq<CString>)
    requires p != []
    ensures AllAccepted(p) <==> |p[0]| <= Wire.MAX_STRING && AllAccepted(p[1..])
  {
    assert forall i :: 1 <= i < |p| ==> p[i] == p[1..][i - 1];
  }

  lemma {:induction false} StringsBack(p: seq<CString>, rest: seq<Byte>)
    ensures GetStrings(Strings(p) + rest, |p|) == if AllAccepted(p) then Some((p, rest)) else None
    decreases |p|
  {
    hide Wire.GetString, Wire.PutString, UpToNul;
    if p == [] {
      assert Strings(p) + rest == rest;
    } else {
      hide AllAccepted;
      var w := Strings(p[1..]) + rest;
      assert Strings(p) + rest == Wire.PutString(p[0]) + w;
      Wire.StringRoundTrip(p[0], w);
      StringsBack(p[1..], rest);
      UpToNulWhole(p[0]);
      AcceptedFirst(p);
      assert p == [p[0]] + p[1..];
    }
  }

  /** A KEXINIT of any sender reads back, with its first_kex_packet_follows byte, exactly
      when each list is within 256K and the whole payload within one chunk. */
  lemma KexinitReads(cookie: seq<Byte>, p: seq<CString>, follows: Byte, reserved: U32)
    requires |cookie| == COOKIE && |p| == PROPOSALS
    ensures var raw := cookie + Strings(p) + [follows] + PutU32(reserved);
      Parse(raw) == if AllAccepted(p) && |raw| <= MAX_CHUNK then Some((p, follows)) else None
  {
    hide PutU32;
    var rest := [follows] + PutU32(reserved);
    var raw := cookie + Strings(p) + [follows] + PutU32(reserved);
    assert raw == cookie + (Strings(p) + rest);
    assert raw[COOKIE..] == Strings(p) + rest;
    StringsBack(p, rest);
  }

  /** Proposals survive the wire under any cookie, exactly when each list is within
      256K and the whole payload within one chunk; otherwise the reader ends. */
  lemma ProposalsSurvive(cookie: seq<Byte>, p: seq<CString>)
    requires |cookie| == COOKIE && |p| == PROPOSALS
    ensures Parse(Payload(cookie, p))
         == if AllAccepted(p) && |Payload(cookie, p)| <= MAX_CHUNK then Some((p, 0)) else None
  {
    hide Parse, Strings, PutU32;
    KexinitReads(cookie, p, 0, 0);
  }

  /** What a packet can carry, 256K with its type, always survives: the other bounds do
      not come into play. */
  lemma ProposalsInAPacketSurvive(cookie: seq<Byte>, p: seq<CString>)
    requires |cookie| == COOKIE && |p| == PROPOSALS && |Payload(cookie, p)| <= 256 * 1024
    ensures Parse(Payload(cookie, p)) == Some((p, 0))
  {
    hide Strings, Parse;
    ProposalsSurvive(cookie, p);
    forall i | 0 <= i < |p| ensures |p[i]| <= Wire.MAX_STRING {
      StringsGrow(p, i + 1);
    }
  }

  // --------------------------------------------------------------- the loops

  method PutChar(b: Buffer, c: Byte) returns (ok: bool)
    requires b.Valid()
    modifies b, b.buf
    ensures b.Valid() && (b.buf == old(b.buf) || fresh(b.buf))
    ensures ok ==> b.Contents() == old(b.Contents()) + [c]
    ensures |old(b.Contents())| <= MAX_CHUNK ==> ok
  {
    hide Appended;
    if |b.Contents()| <= MAX_CHUNK {
      FitsWhenModest(b.Here(), 1);
    }
    ok := b.Append([c]);
  }

  method PutCookie(b: Buffer)
    requires b.Valid() && b.Contents() == []
    modifies b, b.buf
    ensures b.Valid() && (b.buf == old(b.buf) || fresh(b.buf))
    ensures b.Contents() == Zeros(COOKIE)
  {
    var i := 0;
    while i < COOKIE
      invariant 0 <= i <= COOKIE && b.Valid() && (b.buf == old(b.buf) || fresh(b.buf))
      invariant b.Contents() == Zeros(i)
    {
      var ok := PutChar(b, 0);
      i := i + 1;
    }
  }

  lemma {:induction false} StringsSnoc(ss: seq<CString>, s: CString)
    ensures Strings(ss + [s]) == Strings(ss) + Wire.PutString(s)
    decreases |ss|
  {
    if ss == [] {
      assert [s][1..] == [];
    } else {
      assert (ss + [s])[1..] == ss[1..] + [s];
      StringsSnoc(ss[1..], s);
    }
  }

  lemma {:induction false} StringsGrow(ss: seq<CString>, i: nat)
    requires i <= |ss|
    ensures |Strings(ss[..i])| <= |Strings(ss)|
    ensures 0 < i ==> 4 + |ss[i - 1]| <= |Strings(ss[..i])|
    decreases |ss| - i
  {
    if 0 < i {
      assert ss[..i] == ss[..i - 1] + [ss[i - 1]];
      StringsSnoc(ss[..i - 1], ss[i - 1]);
    }
    if i == |ss| {
      assert ss[..i] == ss;
    } else {
      StringsGrow(ss, i + 1);
      assert ss[..i + 1] == ss[..i] + [ss[i]];
      StringsSnoc(ss[..i], ss[i]);
    }
  }

  /** `kex_prop2buf`. */
  method KexProp2buf(b: Buffer, proposal: seq<CString>) returns (ok: bool)
    requires b.Valid() && |proposal| == PROPOSALS
    modifies b, b.buf
    ensures b.Valid() && (b.buf == old(b.buf) || fresh(b.buf))
    ensures ok ==> b.Contents() == Payload(Zeros(COOKIE), proposal)
    ensures |Payload(Zeros(COOKIE), proposal)| <= MAX_CHUNK ==> ok
  {
    hide Wire.PutString, Strings, PutU32;
    b.Clear();
    PutCookie(b);
    var i := 0;
    StringsNone();
    while i < PROPOSALS
      invariant 0 <= i <= PROPOSALS && b.Valid() && (b.buf == old(b.buf) || fresh(b.buf))
      invariant b.Contents() == Zeros(COOKIE) + Strings(proposal[..i])
    {
      assert proposal[..i + 1] == proposal[..i] + [proposal[i]];
      StringsSnoc(proposal[..i], proposal[i]);
      StringsGrow(proposal, i + 1);
      ok := BufferAux.PutString(b, proposal[i]);
      if !ok {
        return;
      }
      i := i + 1;
    }
    assert proposal[..i] == proposal;
    ok := PutChar(b, 0);
    if ok {
      ok := BufferAux.PutInt(b, 0);
    }
  }

  lemma StringsNone()
    ensures Strings([]) == []
  {
  }

  /** The first `j` of what `GetStrings` takes, and what is left for the others. */
  lemma GetStringsStep(w: seq<Byte>, k: nat)
    requires k > 0
    ensures match Wire.GetString(w)
      case Got(s, rest) =>
        (match GetStrings(rest, k - 1)
         case Some((ss, end)) => GetStrings(w, k) == Some(([UpToNul(s)] + ss, end))
         case None => GetStrings(w, k).None?)
      case _ => GetStrings(w, k).None?
  {
  }

  function Prepend(ss: seq<seq<Byte>>, r: Option<(seq<seq<Byte>>, seq<Byte>)>)
    : (t: Option<(seq<seq<Byte>>, seq<Byte>)>)
  {
    match r case None => None case Some((more, end)) => Some((ss + more, end))
  }

  /** The loop of `kex_buf2prop` over the lists. */
  method TakeStrings(b: Buffer) returns (ok: bool, proposal: seq<seq<Byte>>)
    requires b.Valid()
    modifies b`offset
    ensures b.Valid()
    ensures ok == GetStrings(old(b.Contents()), PROPOSALS).Some?
    ensures ok ==> GetStrings(old(b.Contents()), PROPOSALS) == Some((proposal, b.Contents()))
  {
    hide Wire.GetString, GetStrings, UpToNul;
    proposal, ok := [], true;
    var i := 0;
    ghost var all := GetStrings(b.Contents(), PROPOSALS);
    PrependNone(all);
    while i < PROPOSALS
      invariant 0 <= i <= PROPOSALS && b.Valid()
      invariant all == Prepend(proposal, GetStrings(b.Contents(), PROPOSALS - i))
    {
      GetStringsStep(b.Contents(), PROPOSALS - i);
      var st, s := BufferAux.GetString(b);
      if st != BufferAux.Done {
        return false, [];
      }
      ghost var r := GetStrings(b.Contents(), PROPOSALS - i - 1);
      assert r.Some? ==> proposal + ([UpToNul(s)] + r.value.0) == proposal + [UpToNul(s)] + r.value.0;
      proposal := proposal + [UpToNul(s)];
      i := i + 1;
    }
    GetStringsNone(b.Contents());
    assert proposal + [] == proposal;
  }

  lemma PrependNone(r: Option<(seq<seq<Byte>>, seq<Byte>)>)
    ensures Prepend([], r) == r
  {
    if r.Some? {
      assert [] + r.value.0 == r.value.0;
    }
  }

  lemma GetStringsNone(w: seq<Byte>)
    ensures GetStrings(w, 0) == Some(([], w))
  {
  }

  /** Sixteen `buffer_get_char`, each fatal on an empty buffer. */
  method SkipCookie(b: Buffer) returns (ok: bool)
    requires b.Valid()
    modifies b`offset
    ensures b.Valid() && (ok <==> |old(b.Contents())| >= COOKIE)
    ensures ok ==> b.Contents() == old(b.Contents())[COOKIE..]
  {
    var i := 0;
    ok := true;
    while i < COOKIE
      invariant 0 <= i <= COOKIE && b.Valid() && i <= |old(b.Contents())|
      invariant b.Contents() == old(b.Contents())[i..]
    {
      ok := b.Consume(1);
      if !ok {
        return;
      }
      i := i + 1;
    }
  }

  /** The two fields behind the lists. */
  method TakeTrailer(b: Buffer) returns (ok: bool, first: Byte)
    requires b.Valid()
    modifies b`offset
    ensures b.Valid() && (ok <==> |old(b.Contents())| >= 5)
    ensures ok ==> first == old(b.Contents())[0]
  {
    ghost var rest := b.Contents();
    first := 0;
    var c;
    ok, c := b.Get(1);
    if ok {
      assert rest == c + b.Contents();
      first := c[0];
      var reserved;
      ok, reserved := BufferAux.GetInt(b);
    }
  }

  /** `kex_buf2prop`. */
  method KexBuf2prop(raw: seq<Byte>) returns (r: Option<(seq<seq<Byte>>, Byte)>)
    requires |raw| < TWO32
    ensures r == Parse(raw)
  {
    hide Appended, GetStrings;
    var b := new Buffer();
    if |raw| <= MAX_CHUNK {
      FitsWhenModest(b.Here(), |raw|);
    } else {
      TooLong(b.Here(), |raw|);
    }
    var ok := b.Append(raw);
    if !ok {
      return None;
    }
    assert b.Contents() == raw;
    ok := SkipCookie(b);
    if !ok {
      return None;
    }
    var proposal;
    ok, proposal := TakeStrings(b);
    if !ok {
      return None;
    }
    var first;
    ok, first := TakeTrailer(b);
    return if ok then Some((proposal, first)) else None;
  }
}
