/** Comma-separated lists. */
module Tokens {
  import opened Bytes

  const COMMA: Byte := 44

  /** What stands before the first comma, as `strsep (&s, ",")` cuts it off. */
  function Token(s: seq<Byte>): (t: seq<Byte>)
    ensures |t| <= |s| && t == s[..|t|] && COMMA !in t
    ensures |t| == |s| || s[|t|] == COMMA
  {
    if s == [] || s[0] == COMMA then [] else [s[0]] + Token(s[1..])
  }

  /** A name without commas is what stands before one. */
  lemma {:induction false} TokenOf(t: seq<Byte>, rest: seq<Byte>)
    requires COMMA !in t && (rest == [] || rest[0] == COMMA)
    ensures Token(t + rest) == t
    decreases |t|
  {
    if t == [] {
      assert t + rest == rest;
    } else {
      assert (t + rest)[1..] == t[1..] + rest;
      assert t[0] in t;
      TokenOf(t[1..], rest);
    }
  }
}
