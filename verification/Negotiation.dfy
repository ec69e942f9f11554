/** Algorithm negotiation: proposals on the wire, name lists, and the choice both
    sides make from the same two proposals (section 7.1 of RFC 4253). */
module Negotiation {
  import opened Bytes
  import opened Options
  import opened Tokens

  type Name = seq<Byte>

  const MAX_PROP: nat := 40

  // ---------------------------------------------------------------- name lists

  /** What `strsep` leaves: nothing at all after the last name. */
  function After(s: seq<Byte>): (r: Option<seq<Byte>>)
    ensures r.Some? ==> |r.value| < |s|
  {
    var t := Token(s);
    if |t| == |s| then None else Some(s[|t| + 1..])
  }

  /** The names of a list, up to the first empty one. */
  function Names(s: seq<Byte>): (ns: seq<Name>)
    ensures forall n :: n in ns ==> n != []
    decreases |s|
  {
    var t := Token(s);
    if t == [] then []
    else [t] + (match After(s) case None => [] case Some(rest) => Names(rest))
  }

  function FirstOf(ns: seq<Name>, k: nat): (r: seq<Name>) {
    if |ns| <= k then ns else ns[..k]
  }

  function Join(ns: seq<Name>): (s: seq<Byte>) {
    if ns == [] then [] else if |ns| == 1 then ns[0] else ns[0] + [COMMA] + Join(ns[1..])
  }

  /** A list of names that have neither commas nor are empty reads back as itself. */
  lemma {:induction false} NamesOfJoin(ns: seq<Name>)
    requires forall n :: n in ns ==> n != [] && COMMA !in n
    ensures Names(Join(ns)) == ns
    decreases |ns|
  {
    if |ns| == 1 {
      TokenOf(ns[0], []);
      assert ns[0] + [] == ns[0];
    } else if |ns| > 1 {
      var rest := [COMMA] + Join(ns[1..]);
      assert Join(ns) == ns[0] + rest;
      TokenOf(ns[0], rest);
      assert (ns[0] + rest)[|ns[0]| + 1..] == Join(ns[1..]);
      NamesOfJoin(ns[1..]);
    }
  }

  lemma AfterToken(n: Name, rest: seq<Byte>)
    requires COMMA !in n
    ensures var s := n + ([COMMA] + rest); Token(s) == n && After(s) == Some(rest)
  {
    hide Token;
    TokenOf(n, [COMMA] + rest);
    assert (n + ([COMMA] + rest))[|n| + 1..] == rest;
  }

  lemma NamesFirst(n: Name, rest: seq<Byte>)
    requires n != [] && COMMA !in n
    ensures Names(n + ([COMMA] + rest)) == [n] + Names(rest)
  {
    hide Token, After;
    AfterToken(n, rest);
  }

  lemma NamesNone(rest: seq<Byte>)
    ensures Names([COMMA] + rest) == []
  {
    hide After;
    TokenOf([], [COMMA] + rest);
    assert [] + ([COMMA] + rest) == [COMMA] + rest;
  }

  /** An empty name ends the list, whatever follows. */
  lemma {:induction false} NamesEndAtEmpty(ns: seq<Name>, rest: seq<Byte>)
    requires ns != [] && forall n :: n in ns ==> n != [] && COMMA !in n
    ensures Names(Join(ns) + [COMMA, COMMA] + rest) == ns && Names([COMMA] + rest) == []
    decreases |ns|
  {
    hide Names;
    NamesNone(rest);
    assert ns[0] in ns;
    if |ns| == 1 {
      assert Join(ns) + [COMMA, COMMA] + rest == ns[0] + ([COMMA] + ([COMMA] + rest));
      NamesFirst(ns[0], [COMMA] + rest);
    } else {
      var tail := Join(ns[1..]) + [COMMA, COMMA] + rest;
      assert Join(ns) + [COMMA, COMMA] + rest == ns[0] + ([COMMA] + tail);
      NamesFirst(ns[0], tail);
      assert forall n :: n in ns[1..] ==> n in ns;
      NamesEndAtEmpty(ns[1..], rest);
    }
  }

  /** `i` is where the first client name stands that the server offers too. */
  predicate FirstCommon(client: seq<Name>, server: seq<Name>, i: nat) {
    i < |client| && client[i] in server && forall j :: 0 <= j < i ==> client[j] !in server
  }

  /** The names the server's list counts for. */
  function Offered(server: seq<Byte>): (ns: seq<Name>) {
    FirstOf(Names(server), MAX_PROP)
  }

  /** Of a list of more names the first 40 count. */
  lemma FortyNamesCount(ns: seq<Name>)
    requires forall n :: n in ns ==> n != [] && COMMA !in n
    ensures Offered(Join(ns)) == if |ns| <= 40 then ns else ns[..40]
  {
    hide Names, Join;
    NamesOfJoin(ns);
  }

  function Common(client: seq<Name>, server: seq<Name>): (r: Option<Name>) {
    if client == [] then None
    else if client[0] in server then Some(client[0])
    else Common(client[1..], server)
  }

  /** It is the first client name the server offers, and none only if there is none. */
  lemma {:induction false} CommonIsFirst(client: seq<Name>, server: seq<Name>) returns (i: nat)
    ensures match Common(client, server)
      case Some(n) => FirstCommon(client, server, i) && client[i] == n
      case None => forall j :: 0 <= j < |client| ==> client[j] !in server
    decreases |client|
  {
    i := 0;
    if client != [] && client[0] !in server {
      var k := CommonIsFirst(client[1..], server);
      assert forall j :: 1 <= j < |client| ==> client[j] == client[1..][j - 1];
      i := k + 1;
    }
  }

  function Pick(client: seq<Byte>, server: seq<Byte>): (r: Option<Name>) {
    Common(Names(client), Offered(server))
  }

  /** The names still to come in a `strsep` loop. */
  function Remaining(sp: Option<seq<Byte>>): (ns: seq<Name>) {
    match sp case None => [] case Some(s) => Names(s)
  }

  function Size(sp: Option<seq<Byte>>): (n: nat) {
    match sp case None => 0 case Some(s) => |s| + 1
  }

  lemma NamesStep(s: seq<Byte>)
    ensures if Token(s) == [] then Names(s) == []
            else Names(s) == [Token(s)] + Remaining(After(s))
  {
  }

  /** The first loop of `match_list`. */
  method ServerNames(server: seq<Byte>) returns (sproposals: seq<Name>)
    ensures sproposals == Offered(server)
  {
    hide Names, Token, After;
    sproposals := [];
    var sp := Some(server);
    while sp.Some? && Token(sp.value) != [] && |sproposals| < MAX_PROP
      invariant |sproposals| <= MAX_PROP
      invariant sproposals + Remaining(sp) == Names(server)
      decreases Size(sp)
    {
      NamesStep(sp.value);
      assert sproposals + Names(sp.value) == sproposals + [Token(sp.value)] + Remaining(After(sp.value));
      sproposals := sproposals + [Token(sp.value)];
      sp := After(sp.value);
    }
    if sp.Some? {
      NamesStep(sp.value);
    }
    assert Names(server)[..|sproposals|] == sproposals;
  }

  /** Its inner loop. */
  method Among(p: Name, sproposals: seq<Name>) returns (found: bool)
    ensures found <==> p in sproposals
  {
    var j := 0;
    while j < |sproposals|
      invariant 0 <= j <= |sproposals|
      invariant p !in sproposals[..j]
    {
      if sproposals[j] == p {
        return true;
      }
      j := j + 1;
    }
    return false;
  }

  /** `match_list`: the first name of the client's list, before any empty one, that is
      among the first 40 of the server's, before any empty one. */
  method MatchList(client: seq<Byte>, server: seq<Byte>) returns (r: Option<Name>)
    ensures r == Pick(client, server)
  {
    hide Names, Token, After;
    var sproposals := ServerNames(server);
    var cp := Some(client);
    while cp.Some? && Token(cp.value) != []
      invariant Common(Remaining(cp), sproposals) == Common(Names(client), sproposals)
      decreases Size(cp)
    {
      NamesStep(cp.value);
      var p := Token(cp.value);
      var found := Among(p, sproposals);
      if found {
        return Some(p);
      }
      assert Names(cp.value)[1..] == Remaining(After(cp.value));
      cp := After(cp.value);
    }
    if cp.Some? {
      NamesStep(cp.value);
    }
    return None;
  }

  // ------------------------------------------------------------ the algorithms

  datatype Enc = Enc(name: Name, keyLen: nat, blockSize: nat)
  datatype Mac = Mac(name: Name, keyLen: nat, macLen: nat)
  datatype KexType = DhGrp1Sha1 | DhGrp14Sha1 | DhGexSha1 | DhGexSha256
  datatype KeyType = Rsa1 | Rsa | Dsa | Null

  /** What a direction of the connection is protected with. */
  datatype Suite = Suite(enc: Enc, mac: Mac, comp: Name)

  function Ascii(s: string): (b: seq<Byte>) {
    seq(|s|, i requires 0 <= i < |s| => s[i] as int % 256)
  }

  /** `cipher_by_name`: key and block length. */
  function CipherByName(name: Name): (r: Option<(nat, nat)>)
    ensures r.Some? ==> r.value.0 <= 32 && (r.value.1 == 8 || r.value.1 == 16)
  {
    if name == Ascii("none") then Some((0, 8))
    else if name == Ascii("3des-cbc") then Some((24, 8))
    else if name == Ascii("blowfish-cbc") || name == Ascii("cast128-cbc")
            || name == Ascii("arcfour") || name == Ascii("arcfour128") then Some((16, 8))
    else if name == Ascii("arcfour256") then Some((32, 8))
    else if name == Ascii("aes128-cbc") || name == Ascii("aes128-ctr") then Some((16, 16))
    else if name == Ascii("aes192-cbc") || name == Ascii("aes192-ctr") then Some((24, 16))
    else if name == Ascii("aes256-cbc") || name == Ascii("aes256-ctr")
            || name == Ascii("rijndael-cbc@lysator.liu.se") then Some((32, 16))
    else None
  }

  /** `mac_setup`: key and tag length. */
  function MacByName(name: Name): (r: Option<(nat, nat)>)
    ensures r.Some? ==> 16 <= r.value.0 <= 20 && 8 <= r.value.1 <= 20
  {
    if name == Ascii("hmac-sha1") || name == Ascii("hmac-ripemd160")
       || name == Ascii("hmac-ripemd160@openssh.com") then Some((20, 20))
    else if name == Ascii("hmac-sha1-96") then Some((20, 12))
    else if name == Ascii("hmac-md5") then Some((16, 16))
    else if name == Ascii("hmac-md5-96") then Some((16, 12))
    else if name == Ascii("umac-64@openssh.com") then Some((16, 8))
    else None
  }

  predicate KnownCompression(name: Name) {
    name == Ascii("zlib@openssh.com") || name == Ascii("zlib") || name == Ascii("none")
  }

  function KexByName(name: Name): (r: Option<KexType>) {
    if name == Ascii("diffie-hellman-group1-sha1") then Some(DhGrp1Sha1)
    else if name == Ascii("diffie-hellman-group14-sha1") then Some(DhGrp14Sha1)
    else if name == Ascii("diffie-hellman-group-exchange-sha1") then Some(DhGexSha1)
    else if name == Ascii("diffie-hellman-group-exchange-sha256") then Some(DhGexSha256)
    else None
  }

  /** `key_type_from_name`. */
  function KeyTypeByName(name: Name): (r: Option<KeyType>) {
    if name == Ascii("rsa1") then Some(Rsa1)
    else if name == Ascii("rsa") || name == Ascii("ssh-rsa") then Some(Rsa)
    else if name == Ascii("dsa") || name == Ascii("ssh-dss") then Some(Dsa)
    else if name == Ascii("null") then Some(Null)
    else None
  }

  /** The ten lists, in the order of a KEXINIT packet. */
  type Proposal = p: seq<Name> | |p| == 10 witness seq(10, _ => [])

  /** What two proposals settle for the direction whose lists are at `enc`, `mac` and
      `comp`; none if a step is fatal. */
  function SuiteOf(c: Proposal, s: Proposal, ctos: bool): (r: Option<Suite>)
    ensures r.Some? ==> 8 <= r.value.enc.blockSize <= 16 && r.value.enc.keyLen <= 32
                        && 16 <= r.value.mac.keyLen <= 20
  {
    var nenc, nmac, ncomp := if ctos then 2 else 3, if ctos then 4 else 5, if ctos then 6 else 7;
    match (Pick(c[nenc], s[nenc]), Pick(c[nmac], s[nmac]), Pick(c[ncomp], s[ncomp]))
    case (Some(e), Some(m), Some(z)) =>
      (match (CipherByName(e), MacByName(m))
       case (Some(cs), Some(ms)) =>
         if KnownCompression(z) then Some(Suite(Enc(e, cs.0, cs.1), Mac(m, ms.0, ms.1), z)) else None
       case _ => None)
    case _ => None
  }

  /** `n` is the first name of the client's list that the server offers. */
  ghost predicate IsChosen(n: Name, client: seq<Byte>, server: seq<Byte>) {
    exists i: nat :: FirstCommon(Names(client), Offered(server), i) && Names(client)[i] == n
  }

  lemma PickIsChosen(client: seq<Byte>, server: seq<Byte>)
    ensures Pick(client, server).Some? ==> IsChosen(Pick(client, server).value, client, server)
    ensures Pick(client, server).None? ==> forall n :: n in Names(client) ==> n !in Offered(server)
  {
    hide Names, Offered, Common;
    var i := CommonIsFirst(Names(client), Offered(server));
    if Pick(client, server).Some? {
      assert FirstCommon(Names(client), Offered(server), i);
    }
  }

  /** What a direction is protected with: of each kind of algorithm the client's first
      choice that the server offers, looked up in this program's own tables. */
  lemma SuiteIsFirstChoice(c: Proposal, s: Proposal, ctos: bool)
    ensures var r := SuiteOf(c, s, ctos); var k := if ctos then 0 else 1;
      r.Some? ==>
        && IsChosen(r.value.enc.name, c[2 + k], s[2 + k])
        && CipherByName(r.value.enc.name) == Some((r.value.enc.keyLen, r.value.enc.blockSize))
        && IsChosen(r.value.mac.name, c[4 + k], s[4 + k])
        && MacByName(r.value.mac.name) == Some((r.value.mac.keyLen, r.value.mac.macLen))
        && IsChosen(r.value.comp, c[6 + k], s[6 + k]) && KnownCompression(r.value.comp)
  {
    hide Pick, IsChosen, CipherByName, MacByName, KnownCompression;
    var k := if ctos then 0 else 1;
    PickIsChosen(c[2 + k], s[2 + k]);
    PickIsChosen(c[4 + k], s[4 + k]);
    PickIsChosen(c[6 + k], s[6 + k]);
  }

  function Max(a: nat, b: nat): (m: nat) { if a < b then b else a }

  /** The longest key material one direction uses. */
  function Need(s: Suite): (n: nat) {
    Max(Max(s.enc.keyLen, s.enc.blockSize), s.mac.keyLen)
  }

  /** What the two sides settle, whoever looks at it. */
  datatype Agreed = Agreed(ctos: Suite, stoc: Suite, kex: KexType, hostKey: KeyType, need: nat)

  function Negotiated(c: Proposal, s: Proposal): (r: Option<Agreed>) {
    match (SuiteOf(c, s, true), SuiteOf(c, s, false), Pick(c[0], s[0]), Pick(c[1], s[1]))
    case (Some(out), Some(in'), Some(k), Some(h)) =>
      (match (KexByName(k), KeyTypeByName(h))
       case (Some(kex), Some(hostKey)) => Some(Agreed(out, in', kex, hostKey, Max(Need(out), Need(in'))))
       case _ => None)
    case _ => None
  }

  /** The names of a list pair that one side would settle on and knows. */
  ghost predicate Settles(client: seq<Byte>, server: seq<Byte>, known: Name -> bool) {
    exists i: nat :: FirstCommon(Names(client), Offered(server), i) && known(Names(client)[i])
  }

  lemma PickSettles(client: seq<Byte>, server: seq<Byte>, known: Name -> bool)
    ensures Settles(client, server, known) <==> Pick(client, server).Some? && known(Pick(client, server).value)
    ensures Pick(client, server).Some? ==> IsChosen(Pick(client, server).value, client, server)
  {
    hide Names, Offered, Common;
    PickIsChosen(client, server);
    if Settles(client, server, known) {
      var i: nat :| FirstCommon(Names(client), Offered(server), i) && known(Names(client)[i]);
      assert Names(client)[i] in Names(client);
      var j: nat :| FirstCommon(Names(client), Offered(server), j) && Names(client)[j] == Pick(client, server).value;
      assert i == j;
    }
    if Pick(client, server).Some? && known(Pick(client, server).value) {
      var j: nat :| FirstCommon(Names(client), Offered(server), j) && Names(client)[j] == Pick(client, server).value;
      assert FirstCommon(Names(client), Offered(server), j) && known(Names(client)[j]);
    }
  }

  /** Negotiation succeeds exactly when in each of the eight lists the client's first choice
      that the server offers is one this program knows; and then the key exchange and the
      host key type are those choices too. */
  lemma NegotiatedExactly(c: Proposal, s: Proposal)
    ensures Negotiated(c, s).Some? <==>
      && Settles(c[0], s[0], n => KexByName(n).Some?) && Settles(c[1], s[1], n => KeyTypeByName(n).Some?)
      && Settles(c[2], s[2], n => CipherByName(n).Some?) && Settles(c[3], s[3], n => CipherByName(n).Some?)
      && Settles(c[4], s[4], n => MacByName(n).Some?) && Settles(c[5], s[5], n => MacByName(n).Some?)
      && Settles(c[6], s[6], n => KnownCompression(n)) && Settles(c[7], s[7], n => KnownCompression(n))
    ensures Negotiated(c, s).Some? ==>
      && (exists n :: IsChosen(n, c[0], s[0]) && KexByName(n) == Some(Negotiated(c, s).value.kex))
      && (exists n :: IsChosen(n, c[1], s[1]) && KeyTypeByName(n) == Some(Negotiated(c, s).value.hostKey))
  {
    hide Pick, IsChosen, Settles, KexByName, KeyTypeByName, CipherByName, MacByName, KnownCompression, Need;
    PickSettles(c[0], s[0], n => KexByName(n).Some?);
    PickSettles(c[1], s[1], n => KeyTypeByName(n).Some?);
    PickSettles(c[2], s[2], n => CipherByName(n).Some?);
    PickSettles(c[3], s[3], n => CipherByName(n).Some?);
    PickSettles(c[4], s[4], n => MacByName(n).Some?);
    PickSettles(c[5], s[5], n => MacByName(n).Some?);
    PickSettles(c[6], s[6], n => KnownCompression(n));
    PickSettles(c[7], s[7], n => KnownCompression(n));
  }

  /** Key material is never asked for in vain. */
  lemma NeedInRange(c: Proposal, s: Proposal)
    requires Negotiated(c, s).Some?
    ensures 16 <= Negotiated(c, s).value.need <= 32
  {
    hide SuiteOf, Pick, KexByName, KeyTypeByName;
  }

  /** One side's view: newkeys by mode. */
  datatype Conf = Conf(incoming: Suite, outgoing: Suite, kex: KexType, hostKey: KeyType, weNeed: nat)

  function Viewed(server: bool, a: Agreed): (c: Conf) {
    if server then Conf(a.ctos, a.stoc, a.kex, a.hostKey, a.need)
    else Conf(a.stoc, a.ctos, a.kex, a.hostKey, a.need)
  }

  method ChooseEnc(client: seq<Byte>, server: seq<Byte>) returns (r: Option<Enc>)
    ensures r == match Pick(client, server)
      case None => None
      case Some(e) => (match CipherByName(e) case None => None case Some(cs) => Some(Enc(e, cs.0, cs.1)))
  {
    hide Pick, CipherByName;
    var name := MatchList(client, server);
    match name
    case None => return None;
    case Some(e) =>
      match CipherByName(e)
      case None => return None;
      case Some(cs) => return Some(Enc(e, cs.0, cs.1));
  }

  method ChooseMac(client: seq<Byte>, server: seq<Byte>) returns (r: Option<Mac>)
    ensures r == match Pick(client, server)
      case None => None
      case Some(m) => (match MacByName(m) case None => None case Some(ms) => Some(Mac(m, ms.0, ms.1)))
  {
    hide Pick, MacByName;
    var name := MatchList(client, server);
    match name
    case None => return None;
    case Some(m) =>
      match MacByName(m)
      case None => return None;
      case Some(ms) => return Some(Mac(m, ms.0, ms.1));
  }

  method ChooseComp(client: seq<Byte>, server: seq<Byte>) returns (r: Option<Name>)
    ensures r == match Pick(client, server)
      case None => None
      case Some(z) => if KnownCompression(z) then Some(z) else None
  {
    hide Pick, KnownCompression;
    var name := MatchList(client, server);
    match name
    case None => return None;
    case Some(z) => return if KnownCompression(z) then Some(z) else None;
  }

  /** One round of the mode loop of `kex_choose_conf`. */
  method ChooseMode(c: Proposal, s: Proposal, ctos: bool) returns (r: Option<Suite>)
    ensures r == SuiteOf(c, s, ctos)
  {
    hide Pick, CipherByName, MacByName, KnownCompression;
    var nenc := if ctos then 2 else 3;
    var nmac := if ctos then 4 else 5;
    var ncomp := if ctos then 6 else 7;
    var enc := ChooseEnc(c[nenc], s[nenc]);
    var mac := ChooseMac(c[nmac], s[nmac]);
    var comp := ChooseComp(c[ncomp], s[ncomp]);
    match (enc, mac, comp)
    case (Some(e), Some(m), Some(z)) => return Some(Suite(e, m, z));
    case _ => return None;
  }

  /** The loop that computes `we_need`. */
  method WeNeed(newkeys: seq<Suite>) returns (need: nat)
    requires |newkeys| == 2
    ensures need == Max(Need(newkeys[0]), Need(newkeys[1]))
  {
    need := 0;
    var mode := 0;
    while mode < 2
      invariant 0 <= mode <= 2
      invariant mode == 0 ==> need == 0
      invariant mode == 1 ==> need == Need(newkeys[0])
      invariant mode == 2 ==> need == Max(Need(newkeys[0]), Need(newkeys[1]))
    {
      if need < newkeys[mode].enc.keyLen { need := newkeys[mode].enc.keyLen; }
      if need < newkeys[mode].enc.blockSize { need := newkeys[mode].enc.blockSize; }
      if need < newkeys[mode].mac.keyLen { need := newkeys[mode].mac.keyLen; }
      mode := mode + 1;
    }
  }

  function ClientToServer(server: bool, mode: int): (ctos: bool) {
    (!server && mode == 1) || (server && mode == 0)
  }

  /** `kex_choose_conf`: both roles come to the same agreement on the same two
      proposals, each seeing its own side of it; or both end. */
  method KexChooseConf(server: bool, my: Proposal, peer: Proposal) returns (r: Option<Conf>)
    ensures r == match (if server then Negotiated(peer, my) else Negotiated(my, peer))
      case None => None
      case Some(a) => Some(Viewed(server, a))
  {
    hide SuiteOf, Pick, KexByName, KeyTypeByName, Need;
    var cprop, sprop := my, peer;
    if server {
      cprop, sprop := peer, my;
    }
    var newkeys: seq<Suite> := [];
    var mode := 0;
    while mode < 2
      invariant 0 <= mode == |newkeys| <= 2
      invariant forall m :: 0 <= m < mode ==> SuiteOf(cprop, sprop, ClientToServer(server, m)) == Some(newkeys[m])
    {
      var suite := ChooseMode(cprop, sprop, ClientToServer(server, mode));
      match suite {
        case None => return None;
        case Some(v) => newkeys := newkeys + [v];
      }
      mode := mode + 1;
    }
    assert SuiteOf(cprop, sprop, ClientToServer(server, 0)) == Some(newkeys[0]);
    var kexName := MatchList(cprop[0], sprop[0]);
    var keyName := MatchList(cprop[1], sprop[1]);
    var need := WeNeed(newkeys);
    match (kexName, keyName)
    case (Some(k), Some(h)) =>
      match (KexByName(k), KeyTypeByName(h)) {
        case (Some(kex), Some(hostKey)) => return Some(Conf(newkeys[0], newkeys[1], kex, hostKey, need));
        case _ => return None;
      }
    case _ => return None;
  }

  /** Negotiation agreement: a client and a server fed each other's proposals both
      end or both go on; each one's outgoing algorithms are the other's incoming
      ones, the key exchange, the host key type and `we_need` are the same, and
      `we_need` is between 16 and 32 bytes. */
  method RolesAgree(client: Proposal, server: Proposal) returns (c: Option<Conf>, s: Option<Conf>)
    ensures c.Some? <==> s.Some?
    ensures c.Some? ==>
      && c.value.outgoing == s.value.incoming && c.value.incoming == s.value.outgoing
      && c.value.kex == s.value.kex && c.value.hostKey == s.value.hostKey
      && c.value.weNeed == s.value.weNeed && 16 <= c.value.weNeed <= 32
  {
    hide Negotiated;
    if Negotiated(client, server).Some? {
      NeedInRange(client, server);
    }
    c := KexChooseConf(false, client, server);
    s := KexChooseConf(true, server, client);
  }
}
