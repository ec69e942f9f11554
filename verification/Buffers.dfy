/** The growable FIFO of bytes under every other part: data sits in buf[offset..end]
    and the free room behind it is found by sliding or growing. */
module Buffers {
  import opened Bytes
  import opened Options

  const MAX_CHUNK: int := 0x10_0000
  const MAX_LEN: int := 0xa0_0000
  const FIRST_ALLOC: int := 4096

  /** Where the data sits in how much memory. */
  datatype Layout = Layout(alloc: int, offset: int, end: int)

  const INIT := Layout(4096, 0, 0)

  /** Memory comes as the first 4096 bytes or in multiples of BUFFER_ALLOCSZ. */
  predicate Wf(l: Layout) {
    0 <= l.offset <= l.end < l.alloc <= MAX_LEN && (l.alloc == 4096 || l.alloc % 0x8000 == 0)
  }

  function Held(l: Layout): (n: int) {
    l.end - l.offset
  }

  /** roundup (alloc + len, BUFFER_ALLOCSZ) in unsigned arithmetic. */
  function Grown(alloc: int, len: U32): (n: int)
    requires 0 <= alloc <= MAX_LEN
  {
    ((alloc + len) % 0x1_0000_0000 + 0x7fff) % 0x1_0000_0000 / 0x8000 * 0x8000
  }

  lemma GrownEnough(alloc: int, len: U32)
    requires 0 < alloc <= MAX_LEN && len <= MAX_CHUNK
    ensures alloc + len <= Grown(alloc, len) < alloc + len + 0x8000 && Grown(alloc, len) % 0x8000 == 0
    ensures Grown(alloc, len) <= MAX_LEN <==> alloc + len <= MAX_LEN
  {
  }

  function Restarted(l: Layout): (r: Layout) {
    if l.offset == l.end then l.(offset := 0, end := 0) else l
  }

  function Slid(l: Layout): (r: Layout) {
    if l.offset > MAX_CHUNK then l.(offset := 0, end := l.end - l.offset) else l
  }

  /** The layout after `buffer_append_space`: in place if there is room, else after
      sliding, else after growing; none when it is fatal. */
  function Appended(l: Layout, len: U32): (r: Option<Layout>)
    requires Wf(l)
  {
    if len > MAX_CHUNK then None
    else
      var a := Restarted(l);
      if a.end + len < a.alloc then Some(a.(end := a.end + len))
      else
        var b := Slid(a);
        if b.end + len < b.alloc then Some(b.(end := b.end + len))
        else if Grown(b.alloc, len) > MAX_LEN then None
        else Some(b.(alloc := Grown(b.alloc, len), end := b.end + len))
  }

  lemma TooLong(l: Layout, len: U32)
    requires Wf(l) && len > MAX_CHUNK
    ensures Appended(l, len).None?
  {
  }

  lemma AppendedWf(l: Layout, len: U32)
    requires Wf(l) && Appended(l, len).Some?
    ensures Wf(Appended(l, len).value) && Held(Appended(l, len).value) == Held(l) + len
  {
    hide Grown;
    GrownEnough(l.alloc, len);
  }

  /** Several appends in a row. */
  function AppendedAll(l: Layout, lens: seq<U32>): (r: Option<Layout>)
    requires Wf(l)
    decreases |lens|
  {
    if lens == [] then Some(l)
    else match Appended(l, lens[0])
      case None => None
      case Some(m) => AppendedWf(l, lens[0]); AppendedAll(m, lens[1..])
  }

  lemma AppendedOne(l: Layout, n: U32)
    requires Wf(l)
    ensures AppendedAll(l, [n]) == Appended(l, n)
  {
    hide Appended;
    assert [n][1..] == [];
    if Appended(l, n).Some? {
      AppendedWf(l, n);
      assert AppendedAll(Appended(l, n).value, []) == Appended(l, n);
    }
  }

  lemma AppendedTwo(l: Layout, m: U32, n: U32)
    requires Wf(l)
    ensures Appended(l, m).None? ==> AppendedAll(l, [m, n]).None?
    ensures Appended(l, m).Some? ==>
      Wf(Appended(l, m).value) && AppendedAll(l, [m, n]) == Appended(Appended(l, m).value, n)
  {
    hide Appended;
    assert [m, n][1..] == [n];
    if Appended(l, m).Some? {
      AppendedWf(l, m);
      AppendedOne(Appended(l, m).value, n);
    }
  }

  /** `buffer_check_alloc`, whose sums wrap around for lengths no append takes. */
  predicate Room(l: Layout, len: U32)
    requires Wf(l)
  {
    || (Restarted(l).end + len) % 0x1_0000_0000 < l.alloc
    || (Slid(Restarted(l)).end + len) % 0x1_0000_0000 < l.alloc
    || Grown(l.alloc, len) <= MAX_LEN
  }

  lemma RoomKept(l: Layout, len: U32)
    requires Wf(l)
    ensures Wf(Restarted(l)) && Room(Restarted(l), len) == Room(l, len)
    ensures Wf(Slid(Restarted(l)))
    ensures !((Restarted(l).end + len) % 0x1_0000_0000 < l.alloc) ==> Room(Slid(Restarted(l)), len) == Room(l, len)
  {
    hide Grown;
  }

  /** Up to a chunk the two agree: the check is right exactly about appends. */
  lemma RoomIsAppended(l: Layout, len: U32)
    requires Wf(l) && len <= MAX_CHUNK
    ensures Room(l, len) <==> Appended(l, len).Some?
  {
    hide Grown;
  }

  /** An emptied buffer starts over: what fits its memory goes to the front, without
      growing. */
  lemma EmptyStartsOver(l: Layout, len: U32)
    requires Wf(l) && Held(l) == 0 && len <= MAX_CHUNK && len < l.alloc
    ensures Appended(l, len) == Some(Layout(l.alloc, 0, len))
  {
  }

  // -------------------------------------------------- how full is too full?

  /** The least number of bytes held with which an append of `len` can be fatal. */
  function Bound(len: U32): (n: int) {
    MAX_LEN - MAX_CHUNK - len - (len - 1) / 0x8000 * 0x8000
  }

  /** With fewer bytes held an append is never fatal, wherever they sit. */
  lemma FitsBelowBound(l: Layout, len: U32)
    requires Wf(l) && len <= MAX_CHUNK && (len == 0 || Held(l) < Bound(len))
    ensures Appended(l, len).Some?
  {
    hide Grown;
    GrownEnough(l.alloc, len);
  }

  /** In round numbers. */
  lemma FitsWhenModest(l: Layout, len: U32)
    requires Wf(l) && len <= MAX_CHUNK && Held(l) <= 0x70_0000
    ensures Appended(l, len).Some?
  {
    hide Appended;
    FitsBelowBound(l, len);
  }

  datatype Op = Add(len: U32) | TakeFront(n: nat) | TakeBack(n: nat)

  /** A layout after an operation; taking more than there is changes nothing. */
  function Applied(l: Layout, op: Op): (r: Option<Layout>)
    requires Wf(l)
    ensures r.Some? ==> Wf(r.value)
  {
    match op
    case Add(len) =>
      var r := Appended(l, len);
      if r.Some? then AppendedWf(l, len); r else None
    case TakeFront(n) => Some(if n <= Held(l) then l.(offset := l.offset + n) else l)
    case TakeBack(n) => Some(if n <= Held(l) then l.(end := l.end - n) else l)
  }

  function AppliedAll(l: Layout, ops: seq<Op>): (r: Option<Layout>)
    requires Wf(l)
    decreases |ops|
  {
    if ops == [] then Some(l)
    else match Applied(l, ops[0]) case None => None case Some(m) => AppliedAll(m, ops[1..])
  }

  lemma {:induction false} AppliedSnoc(l: Layout, ops: seq<Op>, op: Op, m: Layout)
    requires Wf(l) && Wf(m) && AppliedAll(l, ops) == Some(m)
    ensures AppliedAll(l, ops + [op]) == Applied(m, op)
    decreases |ops|
  {
    hide Applied;
    if ops == [] {
      assert [op][1..] == [];
    } else {
      assert (ops + [op])[0] == ops[0] && (ops + [op])[1..] == ops[1..] + [op];
      AppliedSnoc(Applied(l, ops[0]).value, ops[1..], op, m);
    }
  }

  function Filled(k: nat): (l: Layout) {
    Layout(0x8000 * k, 0, 0x8000 * k - 0x1000)
  }

  lemma FilledNext(k: nat)
    requires 1 <= k < 320
    ensures Wf(Filled(k)) && Applied(Filled(k), Add(0x8000)) == Some(Filled(k + 1))
  {
    GrownEnough(0x8000 * k, 0x8000);
  }

  /** Appends of 0x8000 bytes grow the memory by as much each time. */
  lemma {:induction false} FillUp(k: nat) returns (ops: seq<Op>)
    requires 1 <= k <= 320
    ensures Wf(Filled(k)) && AppliedAll(INIT, ops) == Some(Filled(k))
    decreases k
  {
    hide Applied;
    if k == 1 {
      ops := [Add(0x7000)];
      FilledFirst();
      AppliedSnoc(INIT, [], Add(0x7000), INIT);
      assert [] + ops == ops;
    } else {
      var before := FillUp(k - 1);
      FilledNext(k - 1);
      AppliedSnoc(INIT, before, Add(0x8000), Filled(k - 1));
      ops := before + [Add(0x8000)];
    }
  }

  lemma FilledFirst()
    ensures Wf(INIT) && Applied(INIT, Add(0x7000)) == Some(Filled(1))
  {
  }

  /** The layout in which an append of `len` is fatal with the fewest bytes held. */
  function Tight(len: U32): (l: Layout) {
    var alloc := MAX_LEN - (len - 1) / 0x8000 * 0x8000;
    Layout(alloc, MAX_CHUNK, alloc - len)
  }

  lemma TightIsFatal(len: U32)
    requires 0 < len <= MAX_CHUNK
    ensures Wf(Tight(len)) && Held(Tight(len)) == Bound(len) && Appended(Tight(len), len).None?
  {
    hide Grown;
    GrownEnough(Tight(len).alloc, len);
  }

  /** Without the last bytes or with a few more, and then a chunk taken off the front. */
  lemma TightFromFilled(len: U32, k: nat)
    requires 0 < len <= MAX_CHUNK && k == 320 - (len - 1) / 0x8000
    ensures Wf(Filled(k)) && 1 <= k <= 320
    ensures var op := if len <= 0x1000 then Add(0x1000 - len) else TakeBack(len - 0x1000);
      var m := Filled(k).(end := Tight(len).end);
      Wf(m) && Applied(Filled(k), op) == Some(m) && Applied(m, TakeFront(MAX_CHUNK)) == Some(Tight(len))
  {
  }

  /** The bound is exact: for every length a run of appends and consumes leads to a
      buffer holding just that many bytes where the append is fatal. */
  lemma BoundIsReached(len: U32) returns (ops: seq<Op>)
    requires 0 < len <= MAX_CHUNK
    ensures AppliedAll(INIT, ops) == Some(Tight(len))
    ensures Wf(Tight(len)) && Held(Tight(len)) == Bound(len) && Appended(Tight(len), len).None?
  {
    hide Applied, Appended, Tight, Filled, Bound;
    var k: nat := 320 - (len - 1) / 0x8000;
    TightFromFilled(len, k);
    TightIsFatal(len);
    var op := if len <= 0x1000 then Add(0x1000 - len) else TakeBack(len - 0x1000);
    var m := Filled(k).(end := Tight(len).end);
    var filled := FillUp(k);
    AppliedSnoc(INIT, filled, op, Filled(k));
    AppliedSnoc(INIT, filled + [op], TakeFront(MAX_CHUNK), m);
    ops := filled + [op] + [TakeFront(MAX_CHUNK)];
  }

  class Buffer {
    var buf: array<Byte>
    var alloc: int
    var offset: int
    var end: int

    ghost predicate Valid()
      reads this
    {
      Wf(Here()) && alloc == buf.Length
    }

    ghost function Here(): (l: Layout)
      reads this
    {
      Layout(alloc, offset, end)
    }

    ghost function Contents(): (c: seq<Byte>)
      requires Valid()
      reads this, buf
    {
      buf[offset..end]
    }

    constructor ()
      ensures Valid() && fresh(buf) && Contents() == []
    {
      buf := new Byte[FIRST_ALLOC](_ => 0);
      alloc, offset, end := FIRST_ALLOC, 0, 0;
    }

    method Clear()
      requires Valid()
      modifies this
      ensures Valid() && buf == old(buf) && Contents() == []
    {
      offset, end := 0, 0;
    }

    /** `buffer_compact`. */
    method Compact() returns (moved: bool)
      requires Valid()
      modifies this, buf
      ensures Valid() && Contents() == old(Contents()) && buf == old(buf) && alloc == old(alloc)
      ensures moved <==> old(offset) > MAX_CHUNK
      ensures if moved then offset == 0 && end == old(end) - old(offset) else offset == old(offset) && end == old(end)
    {
      if offset > (if alloc < MAX_CHUNK then alloc else MAX_CHUNK) {
        forall i | 0 <= i < end - offset {
          buf[i] := buf[offset + i];
        }
        end := end - offset;
        offset := 0;
        return true;
      }
      return false;
    }

    /** `xrealloc`: the old bytes stay, the rest is whatever it is. */
    method Reallocate(n: int)
      requires Valid() && alloc <= n <= MAX_LEN && n % 0x8000 == 0
      modifies this
      ensures Valid() && Contents() == old(Contents()) && fresh(buf)
      ensures alloc == n && offset == old(offset) && end == old(end)
    {
      var bigger := new Byte[n](_ => 0);
      forall i | 0 <= i < alloc {
        bigger[i] := buf[i];
      }
      buf, alloc := bigger, n;
    }

    method RestartIfEmpty()
      requires Valid()
      modifies this`offset, this`end
      ensures Valid() && Contents() == old(Contents())
      ensures Here() == Restarted(old(Here()))
    {
      if offset == end {
        offset, end := 0, 0;
      }
    }

    /** `buffer_append_space`: `ok` is false when it is fatal, and otherwise the `len`
        bytes from `p` on are the caller's to fill.  The loop slides at most once
        and grows at most once. */
    method AppendSpace(len: U32) returns (ok: bool, p: int, ghost slides: nat, ghost growths: nat)
      requires Valid()
      modifies this, buf
      ensures Valid() && (buf == old(buf) || fresh(buf))
      ensures ok <==> Appended(old(Here()), len).Some?
      ensures ok ==> Here() == Appended(old(Here()), len).value
      ensures slides <= 1 && growths <= 1
      ensures if ok then offset <= p == end - len && buf[offset..p] == old(Contents())
              else Contents() == old(Contents())
    {
      ok, p, slides, growths := false, 0, 0, 0;
      if len > MAX_CHUNK {
        return;
      }
      hide Grown;
      GrownEnough(alloc, len);
      RestartIfEmpty();
      while !(end + len < alloc)
        invariant Valid() && Contents() == old(Contents())
        invariant buf == old(buf) || fresh(buf)
        invariant slides <= 1 && growths <= 1
        invariant var a := Restarted(old(Here())); var b := Slid(a);
          && (slides == 0 ==> offset == a.offset && end == a.end)
          && (slides == 1 ==> !(a.end + len < a.alloc) && offset == b.offset && end == b.end && a.offset > MAX_CHUNK)
          && (growths == 0 ==> alloc == a.alloc)
          && (growths == 1 ==> alloc == Grown(a.alloc, len) <= MAX_LEN && end + len < alloc
                               && offset == b.offset && end == b.end && !(b.end + len < a.alloc)
                               && !(a.end + len < a.alloc))
        decreases 2 - slides - growths
      {
        var moved := Compact();
        if moved {
          slides := slides + 1;
        } else {
          var newlen := Grown(alloc, len);
          if newlen > MAX_LEN {
            return;
          }
          Reallocate(newlen);
          growths := growths + 1;
        }
      }
      ok, p := true, end;
      end := end + len;
    }

    /** `memcpy` to the space just made. */
    method CopyIn(p: int, data: seq<Byte>)
      requires Valid() && offset <= p && p + |data| == end
      modifies buf
      ensures Contents() == old(buf[offset..p]) + data
    {
      ghost var kept := buf[offset..p];
      forall i | 0 <= i < |data| {
        buf[p + i] := data[i];
      }
      assert buf[offset..p] == kept && buf[p..end] == data;
      assert buf[offset..end] == buf[offset..p] + buf[p..end];
    }

    method Append(data: seq<Byte>) returns (ok: bool)
      requires Valid() && |data| < TWO32
      modifies this, buf
      ensures Valid() && (buf == old(buf) || fresh(buf))
      ensures ok <==> Appended(old(Here()), |data|).Some?
      ensures ok ==> Here() == Appended(old(Here()), |data|).value
      ensures Contents() == old(Contents()) + if ok then data else []
    {
      hide Appended;
      var p;
      ghost var slides, growths;
      ok, p, slides, growths := AppendSpace(|data|);
      if ok {
        CopyIn(p, data);
      }
    }

    /** `buffer_check_alloc`: the contents stay, and for up to a chunk the answer is
        that of an append made now or right after. */
    method CheckAlloc(len: U32) returns (fits: bool)
      requires Valid()
      modifies this, buf
      ensures Valid() && Contents() == old(Contents()) && buf == old(buf)
      ensures fits == Room(old(Here()), len) == Room(Here(), len)
      ensures len <= MAX_CHUNK ==> fits == Appended(Here(), len).Some?
    {
      hide Room, Appended;
      ghost var before := Here();
      RoomKept(before, len);
      fits := SearchRoom(len);
      if len <= MAX_CHUNK {
        RoomIsAppended(Here(), len);
      }
    }

    method SearchRoom(len: U32) returns (fits: bool)
      requires Valid()
      modifies this, buf
      ensures Valid() && Contents() == old(Contents()) && buf == old(buf)
      ensures fits == Room(old(Here()), len)
      ensures var a := Restarted(old(Here()));
        Here() == a || (Here() == Slid(a) && !((a.end + len) % 0x1_0000_0000 < a.alloc))
    {
      hide Grown;
      RestartIfEmpty();
      ghost var compacted := false;
      while !((end + len) % 0x1_0000_0000 < alloc)
        invariant Valid() && Contents() == old(Contents()) && buf == old(buf) && alloc == old(alloc)
        invariant var a := Restarted(old(Here()));
          if compacted then Here() == Slid(a) && a.offset > MAX_CHUNK && !((a.end + len) % 0x1_0000_0000 < a.alloc)
          else Here() == a
        decreases !compacted
      {
        var moved := Compact();
        if !moved {
          return Grown(alloc, len) <= MAX_LEN;
        }
        compacted := true;
      }
      return true;
    }

    function Len(): (n: int)
      requires Valid()
      reads this, buf
      ensures n == |Contents()|
    {
      end - offset
    }

    /** `buffer_get_ret`. */
    method Get(len: U32) returns (ok: bool, data: seq<Byte>)
      requires Valid()
      modifies this`offset
      ensures Valid() && (ok <==> len <= |old(Contents())|)
      ensures ok ==> |data| == len && data + Contents() == old(Contents())
      ensures !ok ==> Contents() == old(Contents())
    {
      if len > end - offset {
        return false, [];
      }
      data := buf[offset..offset + len];
      offset := offset + len;
      ok := true;
    }

    /** `buffer_consume_ret`. */
    method Consume(bytes: U32) returns (ok: bool)
      requires Valid()
      modifies this`offset
      ensures Valid() && (ok <==> bytes <= |old(Contents())|)
      ensures Contents() == if ok then old(Contents())[bytes..] else old(Contents())
    {
      if bytes > end - offset {
        return false;
      }
      offset := offset + bytes;
      return true;
    }

    /** `buffer_consume_end_ret`. */
    method ConsumeEnd(bytes: U32) returns (ok: bool)
      requires Valid()
      modifies this`end
      ensures Valid() && (ok <==> bytes <= |old(Contents())|)
      ensures Contents() == if ok then old(Contents())[..|old(Contents())| - bytes] else old(Contents())
    {
      if bytes > end - offset {
        return false;
      }
      end := end - bytes;
      return true;
    }
  }
}
