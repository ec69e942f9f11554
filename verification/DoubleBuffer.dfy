/** What both double buffers share: messages tagged with their place in the
    sequence of puts, and the length-prefixed bytes a half stores them as. */
module DoubleBuffer {
  import opened Bytes
  import opened Wire

  /** A message and the number of messages put before it.  The tag is
      bookkeeping: the buffers store only the data. */
  datatype Item = Item(id: nat, data: seq<Byte>)

  /** The buffer bytes of a half holding these messages. */
  function Frames(items: seq<Item>): (w: seq<Byte>)
    requires Storable(items)
  {
    if items == [] then [] else PutString(items[0].data) + Frames(items[1..])
  }

  predicate Storable(items: seq<Item>) {
    forall i :: 0 <= i < |items| ==> |items[i].data| < TWO32
  }

  lemma {:induction false} FramesAppend(items: seq<Item>, x: Item)
    requires Storable(items) && |x.data| < TWO32
    ensures Frames(items + [x]) == Frames(items) + PutString(x.data)
  {
    if items == [] {
      assert (items + [x])[1..] == [];
    } else {
      assert (items + [x])[1..] == items[1..] + [x];
      FramesAppend(items[1..], x);
    }
  }

  /** A half stores these messages. */
  predicate Holds(buf: seq<Byte>, items: seq<Item>) {
    Storable(items) && buf == Frames(items)
  }

  lemma HoldsAppend(buf: seq<Byte>, items: seq<Item>, x: Item)
    requires Holds(buf, items) && |x.data| < TWO32
    ensures Holds(buf + PutString(x.data), items + [x])
  {
    FramesAppend(items, x);
  }

  /** `buffer_get_string` on a half takes its first message, and cannot take from
      an empty half or a message over 256K. */
  lemma HoldsTake(buf: seq<Byte>, items: seq<Item>)
    requires Holds(buf, items)
    ensures GetString(buf).Got? <==> items != [] && |items[0].data| <= MAX_STRING
    ensures GetString(buf).Got? ==>
              && GetString(buf).value == items[0].data
              && Holds(GetString(buf).rest, items[1..])
  {
    if items != [] {
      StringRoundTrip(items[0].data, Frames(items[1..]));
    }
  }

  /** Data bytes of a sequence of messages, length prefixes not counted. */
  function Payload(items: seq<Item>): (n: nat)
  {
    if items == [] then 0 else Payload(items[..|items| - 1]) + |items[|items| - 1].data|
  }

  lemma {:induction false} PayloadConcat(a: seq<Item>, b: seq<Item>)
    ensures Payload(a + b) == Payload(a) + Payload(b)
  {
    if b == [] {
      assert a + b == a;
    } else {
      var n := |b| - 1;
      assert (a + b)[..|a| + n] == a + b[..n];
      PayloadConcat(a, b[..n]);
    }
  }

  lemma PayloadSnoc(a: seq<Item>, x: Item)
    ensures Payload(a + [x]) == Payload(a) + |x.data|
  {
    assert (a + [x])[..|a|] == a;
  }

  /** The k-th message put carries tag k. */
  predicate Tagged(items: seq<Item>) {
    forall i :: 0 <= i < |items| ==> items[i].id == i
  }

  /** What messages carry. */
  function DataOf(items: seq<Item>): (ds: seq<seq<Byte>>)
    ensures |ds| == |items|
  {
    if items == [] then [] else DataOf(items[..|items| - 1]) + [items[|items| - 1].data]
  }

  lemma DataOfSnoc(items: seq<Item>, x: Item)
    ensures DataOf(items + [x]) == DataOf(items) + [x.data]
  {
    assert (items + [x])[..|items|] == items;
  }
}
