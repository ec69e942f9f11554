/** Integers, strings and big numbers put into and taken from a `Buffer`, against
    their encodings as values in Wire. */
module BufferAux {
  import opened Bytes
  import opened Options
  import opened Buffers
  import Wire

  datatype Status = Done | Error | Fatal

  /** Appends of these lengths were made, or one of them was fatal. */
  predicate After(ok: bool, now: Layout, before: Layout, lens: seq<U32>)
    requires Wf(before)
  {
    var r := AppendedAll(before, lens);
    (ok <==> r.Some?) && (ok ==> r == Some(now))
  }

  /** `buffer_put_int`: fatal exactly when the append is. */
  method PutInt(b: Buffer, v: U32) returns (ok: bool)
    requires b.Valid()
    modifies b, b.buf
    ensures b.Valid() && (b.buf == old(b.buf) || fresh(b.buf))
    ensures After(ok, b.Here(), old(b.Here()), [4])
    ensures ok ==> b.Contents() == old(b.Contents()) + PutU32(v)
    ensures |old(b.Contents())| <= 0x60_0000 ==> ok
  {
    hide PutU32, Appended;
    if |b.Contents()| <= 0x60_0000 {
      FitsWhenModest(b.Here(), 4);
    }
    AppendedOne(b.Here(), 4);
    ok := b.Append(PutU32(v));
  }

  /** `buffer_put_string`. */
  method PutString(b: Buffer, s: seq<Byte>) returns (ok: bool)
    requires b.Valid() && |s| < TWO32
    modifies b, b.buf
    ensures b.Valid() && (b.buf == old(b.buf) || fresh(b.buf))
    ensures After(ok, b.Here(), old(b.Here()), [4, |s|])
    ensures ok ==> b.Contents() == old(b.Contents()) + Wire.PutString(s)
    ensures |old(b.Contents())| <= 0x60_0000 && |s| <= MAX_CHUNK ==> ok
  {
    hide PutU32, Appended;
    ghost var before := b.Contents();
    AppendedOne(b.Here(), 4);
    AppendedTwo(b.Here(), 4, |s|);
    ok := PutInt(b, |s|);
    if ok {
      assert |b.Contents()| == |before| + 4;
      if |before| <= 0x60_0000 && |s| <= MAX_CHUNK {
        FitsWhenModest(b.Here(), |s|);
      }
      ok := b.Append(s);
      assert before + PutU32(|s|) + s == before + Wire.PutString(s);
    }
  }

  /** `buffer_get_int_ret`. */
  method GetInt(b: Buffer) returns (ok: bool, v: U32)
    requires b.Valid()
    modifies b`offset
    ensures b.Valid()
    ensures ok <==> |old(b.Contents())| >= 4
    ensures ok ==> v == GetU32(old(b.Contents())) && b.Contents() == old(b.Contents())[4..]
    ensures !ok ==> b.Contents() == old(b.Contents())
  {
    v := 0;
    ghost var before := b.Contents();
    var data;
    ok, data := b.Get(4);
    if ok {
      GetU32Prefix(data, b.Contents());
      v := GetU32(data);
      assert before[4..] == b.Contents();
    }
  }

  /** `buffer_get_string_ret`. */
  method GetString(b: Buffer) returns (st: Status, value: seq<Byte>)
    requires b.Valid()
    modifies b`offset
    ensures b.Valid()
    ensures match Wire.GetString(old(b.Contents()))
      case Got(s, rest) => st == Done && value == s && b.Contents() == rest
      case Refused(rest) => st == Error && b.Contents() == rest
      case Fatal => st == Fatal
  {
    hide GetU32;
    value := [];
    ghost var before := b.Contents();
    var ok, len := GetInt(b);
    if !ok {
      return Fatal, value;
    }
    if len > 256 * 1024 {
      return Error, value;
    }
    ok, value := b.Get(len);
    if !ok {
      return Error, [];
    }
    assert before[4..] == value + b.Contents();
    return Done, value;
  }

  /** `buffer_put_bignum2_ret` of a number that is not negative. */
  method PutBignum2(b: Buffer, n: nat) returns (ok: bool)
    requires b.Valid() && |Wire.EncodeMpint(n)| < TWO32
    modifies b, b.buf
    ensures b.Valid() && (b.buf == old(b.buf) || fresh(b.buf))
    ensures After(ok, b.Here(), old(b.Here()), if n == 0 then [4] else [4, |Wire.EncodeMpint(n)|])
    ensures ok ==> b.Contents() == old(b.Contents()) + Wire.PutString(Wire.EncodeMpint(n))
    ensures |old(b.Contents())| <= 0x60_0000 && |Wire.EncodeMpint(n)| <= MAX_CHUNK ==> ok
  {
    hide Wire.MinBytes, Appended;
    if n == 0 {
      ok := PutInt(b, 0);
      assert Wire.PutString([]) == PutU32(0);
    } else {
      var buf := [0] + Wire.MinBytes(n);
      var hasNoHigh := if buf[1] >= 0x80 then 0 else 1;
      ok := PutString(b, buf[hasNoHigh..]);
    }
  }

  /** `buffer_get_bignum2_ret`. */
  method GetBignum2(b: Buffer) returns (st: Status, n: nat)
    requires b.Valid()
    modifies b`offset
    ensures b.Valid()
    ensures match Wire.GetString(old(b.Contents()))
      case Got(s, rest) => b.Contents() == rest &&
        (match Wire.DecodeMpint(s) case Got(v, _) => st == Done && n == v case _ => st == Error)
      case Refused(rest) => st == Error && b.Contents() == rest
      case Fatal => st == Fatal
  {
    hide Wire.GetString;
    n := 0;
    var bin;
    st, bin := GetString(b);
    if st == Done {
      if |bin| > 0 && bin[0] >= 0x80 {
        return Error, 0;
      }
      if |bin| > 8 * 1024 {
        return Error, 0;
      }
      n := BigEndian(bin);
    }
  }
}
