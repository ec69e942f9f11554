/** Wildcard matching: `match_pattern` against the meaning of `*` and `?`, and lists
    of such patterns. */
module Glob {
  import opened Bytes
  import opened Tokens

  const STAR: Byte := 42
  const ANY: Byte := 63
  const BANG: Byte := 33

  /** What a pattern means: `*` is any string, `?` any one character. */
  predicate Glob(s: seq<Byte>, p: seq<Byte>)
    decreases |p|
  {
    if p == [] then s == []
    else if p[0] == STAR then exists k :: 0 <= k <= |s| && Glob(s[k..], p[1..])
    else s != [] && (p[0] == ANY || p[0] == s[0]) && Glob(s[1..], p[1..])
  }

  /** What `match_pattern` answers. */
  predicate Matches(s: seq<Byte>, p: seq<Byte>)
    decreases |p|
  {
    if p == [] then s == []
    else if p[0] == STAR then
      if |p| == 1 then true
      else if p[1] != ANY && p[1] != STAR then
        exists k :: 0 <= k < |s| && s[k] == p[1] && Matches(s[k + 1..], p[2..])
      else exists k :: 0 <= k < |s| && Matches(s[k..], p[1..])
    else s != [] && (p[0] == ANY || p[0] == s[0]) && Matches(s[1..], p[1..])
  }

  method MatchPattern(s: seq<Byte>, pattern: seq<Byte>) returns (r: bool)
    ensures r == Matches(s, pattern)
    decreases |pattern|
  {
    var t, p := s, pattern;
    while true
      invariant |p| <= |pattern| && Matches(t, p) == Matches(s, pattern)
      decreases |p|
    {
      if p == [] {
        return t == [];
      }
      if p[0] == STAR {
        if |p| == 1 {
          return true;
        }
        if p[1] != ANY && p[1] != STAR {
          r := TryAfter(t, p);
        } else {
          r := TryFrom(t, p);
        }
        return;
      }
      if t == [] {
        return false;
      }
      if p[0] != ANY && p[0] != t[0] {
        return false;
      }
      t, p := t[1..], p[1..];
    }
  }

  /** The search for the character behind an asterisk. */
  method TryAfter(s: seq<Byte>, p: seq<Byte>) returns (r: bool)
    requires |p| > 1 && p[0] == STAR && p[1] != ANY && p[1] != STAR
    ensures r == Matches(s, p)
    decreases |p|, 0
  {
    var k := 0;
    while k < |s|
      invariant 0 <= k <= |s|
      invariant forall j :: 0 <= j < k ==> !(s[j] == p[1] && Matches(s[j + 1..], p[2..]))
    {
      if s[k] == p[1] {
        var found := MatchPattern(s[k + 1..], p[2..]);
        if found {
          return true;
        }
      }
      k := k + 1;
    }
    return false;
  }

  /** The search at every place. */
  method TryFrom(s: seq<Byte>, p: seq<Byte>) returns (r: bool)
    requires |p| > 1 && p[0] == STAR && (p[1] == ANY || p[1] == STAR)
    ensures r == Matches(s, p)
    decreases |p|, 0
  {
    var k := 0;
    while k < |s|
      invariant 0 <= k <= |s|
      invariant forall j :: 0 <= j < k ==> !Matches(s[j..], p[1..])
    {
      var found := MatchPattern(s[k..], p[1..]);
      if found {
        return true;
      }
      k := k + 1;
    }
    return false;
  }

  // ---------------------------------------------------------------- exactness

  predicate AllStars(p: seq<Byte>) {
    forall i :: 0 <= i < |p| ==> p[i] == STAR
  }

  /** The pattern that is in fact matched: two or more asterisks at the very end
      want at least one character. */
  function Taken(p: seq<Byte>): (q: seq<Byte>)
    decreases |p|
  {
    if AllStars(p) && |p| >= 2 then [ANY, STAR]
    else if p == [] then []
    else [p[0]] + Taken(p[1..])
  }

  lemma StarMatchesAll(s: seq<Byte>)
    ensures Glob(s, [STAR])
  {
    assert Glob(s[|s|..], [STAR][1..]);
  }

  lemma OneOrMore(s: seq<Byte>)
    ensures Glob(s, [ANY, STAR]) <==> s != []
  {
    if s != [] {
      StarMatchesAll(s[1..]);
      assert [ANY, STAR][1..] == [STAR];
    }
  }

  /** A pattern that wants a character does not match nothing. */
  lemma NothingLeft(p: seq<Byte>)
    requires !AllStars(p)
    ensures !Matches([], p)
  {
  }

  lemma {:induction false} MatchesStars(s: seq<Byte>, p: seq<Byte>)
    requires AllStars(p) && |p| >= 2
    ensures Matches(s, p) <==> s != []
    decreases |p|
  {
    if |p| == 2 {
      if s != [] {
        assert Matches(s[0..], p[1..]);
      }
    } else if s != [] {
      MatchesStars(s, p[1..]);
      assert s[0..] == s;
    }
  }

  /** Behind a single asterisk the answer is the meaning, if it is further on. */
  lemma StarStep(s: seq<Byte>, p: seq<Byte>)
    requires |p| >= 2 && p[0] == STAR && !AllStars(p)
    ensures Matches(s, p) <==> exists k :: 0 <= k <= |s| && Matches(s[k..], p[1..])
  {
    var q := p[1..];
    assert !AllStars(q) by {
      var i :| 0 <= i < |p| && p[i] != STAR;
      assert q[i - 1] == p[i];
    }
    NothingLeft(q);
    if q[0] == ANY || q[0] == STAR {
      if k :| 0 <= k <= |s| && Matches(s[k..], q) {
        assert s[|s|..] == [];
        assert k < |s|;
      }
    } else {
      forall k | 0 <= k < |s|
        ensures Matches(s[k..], q) <==> s[k] == q[0] && Matches(s[k + 1..], p[2..])
      {
        assert s[k..][1..] == s[k + 1..] && q[1..] == p[2..];
      }
      if Matches(s, p) {
        var k :| 0 <= k < |s| && s[k] == p[1] && Matches(s[k + 1..], p[2..]);
        assert Matches(s[k..], q);
      }
      if k :| 0 <= k <= |s| && Matches(s[k..], q) {
        assert s[|s|..] == [];
      }
    }
  }

  /** `match_pattern` is exact for the pattern `Taken(p)`. */
  lemma {:induction false} MatchesTaken(s: seq<Byte>, p: seq<Byte>)
    ensures Matches(s, p) <==> Glob(s, Taken(p))
    decreases |p|
  {
    if p == [] {
    } else if AllStars(p) && |p| >= 2 {
      MatchesStars(s, p);
      OneOrMore(s);
    } else if p == [STAR] {
      assert Taken(p) == [STAR];
      StarMatchesAll(s);
    } else if p[0] == STAR {
      StarStep(s, p);
      assert Taken(p)[1..] == Taken(p[1..]);
      forall k | 0 <= k <= |s|
        ensures Matches(s[k..], p[1..]) <==> Glob(s[k..], Taken(p[1..]))
      {
        MatchesTaken(s[k..], p[1..]);
      }
    } else if s != [] {
      assert Taken(p)[1..] == Taken(p[1..]);
      MatchesTaken(s[1..], p[1..]);
    }
  }

  predicate EndsInTwoStars(p: seq<Byte>) {
    |p| >= 2 && p[|p| - 1] == STAR && p[|p| - 2] == STAR
  }

  /** How many characters a pattern wants at least. */
  function Wanted(p: seq<Byte>): (n: nat) {
    if p == [] then 0 else Wanted(p[1..]) + if p[0] == STAR then 0 else 1
  }

  lemma {:induction false} TakenSame(p: seq<Byte>)
    requires !EndsInTwoStars(p)
    ensures Taken(p) == p
    decreases |p|
  {
    if p != [] {
      TakenSame(p[1..]);
    }
  }

  lemma {:induction false} TakenWantsMore(p: seq<Byte>)
    requires EndsInTwoStars(p)
    ensures Wanted(Taken(p)) == Wanted(p) + 1
    decreases |p|
  {
    if AllStars(p) {
      StarsWantNothing(p);
      StarsWantNothing([STAR]);
      assert [ANY, STAR][1..] == [STAR];
    } else {
      assert |p| > 2;
      TakenWantsMore(p[1..]);
      assert Taken(p)[1..] == Taken(p[1..]);
    }
  }

  lemma {:induction false} StarsWantNothing(p: seq<Byte>)
    requires AllStars(p)
    ensures Wanted(p) == 0
  {
    if p != [] {
      StarsWantNothing(p[1..]);
    }
  }

  lemma {:induction false} GlobNeedsWanted(s: seq<Byte>, p: seq<Byte>)
    requires Glob(s, p)
    ensures |s| >= Wanted(p)
    decreases |p|
  {
    if p != [] {
      if p[0] == STAR {
        var k :| 0 <= k <= |s| && Glob(s[k..], p[1..]);
        GlobNeedsWanted(s[k..], p[1..]);
      } else {
        GlobNeedsWanted(s[1..], p[1..]);
      }
    }
  }

  /** A pattern without its asterisks is one of the shortest strings it means. */
  function Solid(p: seq<Byte>): (s: seq<Byte>)
    ensures |s| == Wanted(p)
  {
    if p == [] then [] else (if p[0] == STAR then [] else [p[0]]) + Solid(p[1..])
  }

  lemma {:induction false} GlobSolid(p: seq<Byte>)
    ensures Glob(Solid(p), p)
  {
    if p != [] {
      GlobSolid(p[1..]);
      if p[0] == STAR {
        assert Solid(p)[0..] == Solid(p[1..]);
      } else {
        assert Solid(p)[1..] == Solid(p[1..]);
      }
    }
  }

  lemma {:induction false} TakenMeansLess(s: seq<Byte>, p: seq<Byte>)
    requires Glob(s, Taken(p))
    ensures Glob(s, p)
    decreases |p|
  {
    if AllStars(p) && |p| >= 2 {
      StarsMatchAll(s, p);
    } else if p != [] {
      assert Taken(p)[1..] == Taken(p[1..]);
      if p[0] == STAR {
        var k :| 0 <= k <= |s| && Glob(s[k..], Taken(p[1..]));
        TakenMeansLess(s[k..], p[1..]);
      } else {
        TakenMeansLess(s[1..], p[1..]);
      }
    }
  }

  lemma {:induction false} StarsMatchAll(s: seq<Byte>, p: seq<Byte>)
    requires AllStars(p) && p != []
    ensures Glob(s, p)
    decreases |p|
  {
    if |p| == 1 {
      assert Glob(s[|s|..], p[1..]);
    } else {
      StarsMatchAll(s[0..], p[1..]);
    }
  }

  /** A match is always right. */
  lemma MatchIsSound(s: seq<Byte>, p: seq<Byte>)
    requires Matches(s, p)
    ensures Glob(s, p)
  {
    MatchesTaken(s, p);
    TakenMeansLess(s, p);
  }

  /** And a mismatch is right for every string exactly when the pattern does not end
      in two asterisks; runs of them anywhere else do no harm. */
  lemma MatchIsExact(p: seq<Byte>)
    ensures (forall s :: Matches(s, p) <==> Glob(s, p)) <==> !EndsInTwoStars(p)
  {
    if EndsInTwoStars(p) {
      var s := Solid(p);
      GlobSolid(p);
      MatchesTaken(s, p);
      TakenWantsMore(p);
      if Glob(s, Taken(p)) {
        GlobNeedsWanted(s, Taken(p));
      }
      assert Glob(s, p) && !Matches(s, p);
    } else {
      TakenSame(p);
      forall s ensures Matches(s, p) <==> Glob(s, p) {
        MatchesTaken(s, p);
      }
    }
  }

  /** "**" refuses the empty string. */
  lemma TwoStarsRefuseNothing()
    ensures Glob([], [STAR, STAR]) && !Matches([], [STAR, STAR])
  {
    StarsMatchAll([], [STAR, STAR]);
  }

  // ------------------------------------------------------------ pattern lists

  /** A list entry: negated by a leading `!`, in lower case if asked for. */
  datatype Item = Item(negated: bool, sub: seq<Byte>)

  function ToLower(c: Byte): (l: Byte) {
    if 65 <= c <= 90 then c + 32 else c
  }

  function Lower(s: seq<Byte>, dolower: bool): (t: seq<Byte>)
    ensures |t| == |s|
  {
    if s == [] then [] else [if dolower then ToLower(s[0]) else s[0]] + Lower(s[1..], dolower)
  }

  function Behind(p: seq<Byte>): (q: seq<Byte>) {
    if p != [] && p[0] == BANG then p[1..] else p
  }

  /** What is left once the first entry and its comma are gone. */
  function Remainder(p: seq<Byte>): (r: seq<Byte>)
    requires p != []
    ensures |r| < |p|
  {
    var q := Behind(p);
    var t := Token(q);
    if |t| == |q| then [] else q[|t| + 1..]
  }

  /** The entries of a list; a comma at the very end opens no new one. */
  function Items(p: seq<Byte>, dolower: bool): (items: seq<Item>)
    decreases |p|
  {
    if p == [] then []
    else [Item(p[0] == BANG, Lower(Token(Behind(p)), dolower))] + Items(Remainder(p), dolower)
  }

  /** An entry as it is written. */
  function Entry(x: Item): (w: seq<Byte>) {
    (if x.negated then [BANG] else []) + x.sub
  }

  /** A list as one writes it: entries with commas between them. */
  function Text(items: seq<Item>): (p: seq<Byte>) {
    if items == [] then []
    else Entry(items[0]) + if |items| == 1 then [] else [COMMA] + Text(items[1..])
  }

  /** An entry that can be written: no comma in it, and no `!` of its own in front. */
  predicate Writable(x: Item) {
    COMMA !in x.sub && (!x.negated && x.sub != [] ==> x.sub[0] != BANG)
  }

  function Lowered(items: seq<Item>, dolower: bool): (r: seq<Item>)
    ensures |r| == |items|
  {
    if items == [] then []
    else [Item(items[0].negated, Lower(items[0].sub, dolower))] + Lowered(items[1..], dolower)
  }

  lemma FirstSplit(x: Item, rest: seq<Byte>)
    requires Writable(x) && (rest == [] || rest[0] == COMMA) && Entry(x) + rest != []
    ensures var p := Entry(x) + rest;
      && (p[0] == BANG <==> x.negated) && Token(Behind(p)) == x.sub
      && Remainder(p) == if rest == [] then [] else rest[1..]
  {
    hide Token;
    assert Behind(Entry(x) + rest) == x.sub + rest;
    TokenOf(x.sub, rest);
    assert rest != [] ==> (x.sub + rest)[|x.sub| + 1..] == rest[1..];
  }

  /** One entry off the front. */
  lemma FirstItem(x: Item, rest: seq<Byte>, dolower: bool)
    requires Writable(x) && (rest == [] || rest[0] == COMMA) && Entry(x) + rest != []
    ensures Items(Entry(x) + rest, dolower)
         == [Item(x.negated, Lower(x.sub, dolower))] + Items(if rest == [] then [] else rest[1..], dolower)
  {
    hide Lower, Token, Behind, Remainder, Entry, Writable;
    FirstSplit(x, rest);
  }

  lemma NoItems(dolower: bool)
    ensures Items([], dolower) == []
  {
  }

  lemma TextFirst(items: seq<Item>)
    requires items != []
    ensures Text(items) == Entry(items[0]) + if |items| == 1 then [] else [COMMA] + Text(items[1..])
    ensures Text(items) == [] ==> !items[0].negated && items[0].sub == [] && |items| == 1
  {
  }

  /** A list reads back entry by entry, in lower case if asked for; only an empty last
      entry would be lost. */
  lemma {:induction false} ItemsReadBack(items: seq<Item>, dolower: bool)
    requires forall i :: 0 <= i < |items| ==> Writable(items[i])
    requires items != [] ==> items[|items| - 1].negated || items[|items| - 1].sub != []
    ensures Items(Text(items), dolower) == Lowered(items, dolower)
    decreases |items|
  {
    hide Writable, Lower, Items;
    if items == [] {
      NoItems(dolower);
    } else {
      hide Text;
      var x, rest := items[0], if |items| == 1 then [] else [COMMA] + Text(items[1..]);
      TextFirst(items);
      FirstItem(x, rest, dolower);
      if |items| == 1 {
        NoItems(dolower);
        assert items[1..] == [];
      } else {
        assert rest[1..] == Text(items[1..]);
        ItemsReadBack(items[1..], dolower);
      }
    }
  }

  /** Lower case changes A to Z only, each to the same letter. */
  lemma {:induction false} LowerAt(s: seq<Byte>, i: nat)
    requires i < |s|
    ensures Lower(s, false)[i] == s[i]
    ensures Lower(s, true)[i] == if 'A' as int <= s[i] <= 'Z' as int then s[i] - 'A' as int + 'a' as int else s[i]
    decreases |s|
  {
    if i > 0 {
      LowerAt(s[1..], i - 1);
    }
  }

  /** What the list says, entry by entry: an entry of 1023 characters or more ends it
      with no match. */
  function Verdict(items: seq<Item>, s: seq<Byte>, gotPositive: bool): (v: int) {
    if items == [] then (if gotPositive then 1 else 0)
    else if |items[0].sub| >= 1023 then 0
    else if Matches(s, items[0].sub) then
      if items[0].negated then -1 else Verdict(items[1..], s, true)
    else Verdict(items[1..], s, gotPositive)
  }

  predicate Hit(items: seq<Item>, s: seq<Byte>, negated: bool) {
    exists i :: 0 <= i < |items| && items[i].negated == negated && Matches(s, items[i].sub)
  }

  predicate AllShort(items: seq<Item>) {
    forall i :: 0 <= i < |items| ==> |items[i].sub| < 1023
  }

  /** Where the first overlong entry stands, the end if there is none. */
  function Reach(items: seq<Item>): (n: nat)
    ensures n <= |items| && AllShort(items[..n]) && (n < |items| ==> |items[n].sub| >= 1023)
  {
    if items == [] || |items[0].sub| >= 1023 then 0
    else
      var n := Reach(items[1..]) + 1;
      assert items[..n] == [items[0]] + items[1..][..n - 1];
      n
  }

  lemma HitStep(x: Item, rest: seq<Item>, s: seq<Byte>, negated: bool)
    ensures Hit([x] + rest, s, negated) <==> (x.negated == negated && Matches(s, x.sub)) || Hit(rest, s, negated)
  {
    var all := [x] + rest;
    assert all[0] == x && forall i :: 0 <= i < |rest| ==> all[i + 1] == rest[i];
  }

  /** -1 exactly when a negated entry matches; otherwise 1 exactly when a plain one
      does; where only the entries before an overlong one are looked at, and such an
      entry turns 1 into 0. */
  lemma {:induction false} VerdictExactly(items: seq<Item>, s: seq<Byte>, gotPositive: bool)
    ensures var seen := items[..Reach(items)];
      Verdict(items, s, gotPositive) ==
        if Hit(seen, s, true) then -1
        else if Reach(items) == |items| && (gotPositive || Hit(seen, s, false)) then 1
        else 0
    decreases |items|
  {
    if items != [] && |items[0].sub| < 1023 {
      var rest := items[1..];
      var seen := rest[..Reach(rest)];
      assert items[..Reach(items)] == [items[0]] + seen;
      HitStep(items[0], seen, s, true);
      HitStep(items[0], seen, s, false);
      VerdictExactly(rest, s, gotPositive || (!items[0].negated && Matches(s, items[0].sub)));
    }
  }

  /** Some entry of the kind means the string. */
  predicate Meant(items: seq<Item>, s: seq<Byte>, negated: bool) {
    exists i :: 0 <= i < |items| && items[i].negated == negated && Glob(s, items[i].sub)
  }

  lemma HitIsMeant(items: seq<Item>, s: seq<Byte>, negated: bool)
    requires forall i :: 0 <= i < |items| ==> !EndsInTwoStars(items[i].sub)
    ensures Hit(items, s, negated) <==> Meant(items, s, negated)
  {
    hide Matches, Glob;
    forall i | 0 <= i < |items| ensures Matches(s, items[i].sub) <==> Glob(s, items[i].sub) {
      MatchIsExact(items[i].sub);
    }
  }

  /** In the meaning of the wildcards, for lists without an entry that ends in two
      asterisks: -1 exactly when a negated entry means the string, otherwise 1 exactly
      when a plain one does and no entry is overlong. */
  lemma VerdictMeans(items: seq<Item>, s: seq<Byte>)
    requires forall i :: 0 <= i < |items| ==> !EndsInTwoStars(items[i].sub)
    ensures var seen := items[..Reach(items)];
      Verdict(items, s, false) ==
        if Meant(seen, s, true) then -1
        else if AllShort(items) && Meant(items, s, false) then 1
        else 0
  {
    hide Verdict, Hit, Meant;
    var seen := items[..Reach(items)];
    VerdictExactly(items, s, false);
    HitIsMeant(seen, s, true);
    HitIsMeant(seen, s, false);
    if Reach(items) == |items| {
      assert seen == items;
    }
  }

  /** The inner loop: an entry up to a comma, at most 1023 characters of it. */
  method Extract(q: seq<Byte>, dolower: bool) returns (sub: seq<Byte>)
    ensures |Token(q)| <= 1023 ==> sub == Lower(Token(q), dolower)
    ensures |Token(q)| > 1023 ==> |sub| == 1023
  {
    hide Token;
    sub := [];
    var i := 0;
    while i < |q| && i < 1023 && q[i] != COMMA
      invariant 0 <= i == |sub| <= |q| && i <= 1023 && i <= |Token(q)|
      invariant sub == Lower(Token(q)[..i], dolower)
    {
      TokenBeyond(q, i);
      LowerSnoc(Token(q)[..i], q[i], dolower);
      assert Token(q)[..i + 1] == Token(q)[..i] + [q[i]];
      sub := sub + [if dolower then ToLower(q[i]) else q[i]];
      i := i + 1;
    }
    if i == |q| || q[i] == COMMA {
      TokenEnds(q, i);
      assert Token(q)[..i] == Token(q);
    } else {
      TokenBeyond(q, i);
    }
  }

  lemma TokenBeyond(q: seq<Byte>, i: nat)
    requires i <= |Token(q)| && i < |q| && q[i] != COMMA
    ensures i < |Token(q)| && Token(q)[i] == q[i]
  {
  }

  lemma TokenEnds(q: seq<Byte>, i: nat)
    requires i <= |Token(q)| && (i < |q| ==> q[i] == COMMA)
    ensures |Token(q)| == i
  {
  }

  lemma {:induction false} LowerSnoc(s: seq<Byte>, c: Byte, dolower: bool)
    ensures Lower(s + [c], dolower) == Lower(s, dolower) + [if dolower then ToLower(c) else c]
    decreases |s|
  {
    if s == [] {
      assert [c][1..] == [];
    } else {
      assert (s + [c])[1..] == s[1..] + [c];
      LowerSnoc(s[1..], c, dolower);
    }
  }

  /** `match_pattern_list` on C strings. */
  method MatchPatternList(s: seq<Byte>, pattern: seq<Byte>, dolower: bool) returns (r: int)
    ensures r == Verdict(Items(pattern, dolower), s, false)
  {
    hide Token, Matches, Lower;
    var p, gotPositive := pattern, false;
    while p != []
      invariant Verdict(Items(p, dolower), s, gotPositive) == Verdict(Items(pattern, dolower), s, false)
      decreases |p|
    {
      var negated := p[0] == BANG;
      var q := Behind(p);
      var sub := Extract(q, dolower);
      if |sub| >= 1023 {
        return 0;
      }
      assert Items(p, dolower)[1..] == Items(Remainder(p), dolower);
      var matched := MatchPattern(s, sub);
      if matched {
        if negated {
          return -1;
        }
        gotPositive := true;
      }
      p := Remainder(p);
    }
    return if gotPositive then 1 else 0;
  }
}
